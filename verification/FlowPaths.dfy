/** The text of an extracted path, as a flow shows it and as a step file takes it. */
module FlowPaths {
  import opened Wrappers
  import opened FlowSteps
  import opened FlowBuilding
  import TimeText

  const U64_MAX: nat := 0xffff_ffff_ffff_ffff

  /** A letter, a digit, `_` or `-`; `alnum` is what counts as a letter or a digit. */
  predicate KeyChar(c: char, alnum: char -> bool) {
    alnum(c) || c == '_' || c == '-'
  }

  predicate KeyText(s: string, alnum: char -> bool) {
    s != [] && forall i | 0 <= i < |s| :: KeyChar(s[i], alnum)
  }

  /** `parse::<u64>`. */
  function ParseU64(s: string): Option<nat> {
    var digits := if s != [] && s[0] == '+' then s[1..] else s;
    if digits == [] || !TimeText.AllDigits(digits) || TimeText.Value(digits) > U64_MAX then None
    else Some(TimeText.Value(digits))
  }

  function IndexOf(s: string, c: char): (i: nat)
    ensures i <= |s| && c !in s[..i] && (i < |s| ==> s[i] == c)
  {
    if s == [] || s[0] == c then 0 else 1 + IndexOf(s[1..], c)
  }

  /** Where a key ends. */
  function KeyEnd(s: string): (i: nat)
    ensures i <= |s|
  {
    if s == [] || s[0] == '.' || s[0] == '[' then 0 else 1 + KeyEnd(s[1..])
  }

  /** What follows a key or an index. */
  function Tail(rest: string): (r: Option<string>)
    ensures r.Some? ==> |r.value| <= |rest|
  {
    if rest != [] && rest[0] == '.' then (if rest[1..] == [] then None else Some(rest[1..]))
    else if rest == [] || rest[0] == '[' then Some(rest)
    else None
  }

  function More(key: PathKey, rest: Option<seq<PathKey>>): Option<seq<PathKey>> {
    if rest.Some? then Some([key] + rest.value) else None
  }

  /** The keys of a path after its first dot. */
  function PathKeys(rest: string, alnum: char -> bool): Option<seq<PathKey>>
    decreases |rest|
  {
    if rest == [] then Some([])
    else if rest[0] == '[' then
      var end := IndexOf(rest[1..], ']');
      if end == |rest[1..]| || ParseU64(rest[1..][..end]).None? then None
      else
        var tail := Tail(rest[1..][end + 1..]);
        if tail.None? then None else More(Item(ParseU64(rest[1..][..end]).value), PathKeys(tail.value, alnum))
    else
      var end := KeyEnd(rest);
      if !KeyText(rest[..end], alnum) then None
      else
        var tail := Tail(rest[end..]);
        if tail.None? then None else More(Field(rest[..end]), PathKeys(tail.value, alnum))
  }

  /** `.items[0].name` as its keys and indexes. */
  function SimplePath(text: string, alnum: char -> bool): Option<seq<PathKey>> {
    if text == [] || text[0] != '.' then None else PathKeys(text[1..], alnum)
  }

  /** What is read so far, and the rest, if that can be read. */
  function After(done: seq<PathKey>, rest: Option<seq<PathKey>>): Option<seq<PathKey>> {
    if rest.Some? then Some(done + rest.value) else None
  }

  lemma AfterMore(done: seq<PathKey>, key: PathKey, rest: Option<seq<PathKey>>)
    ensures After(done, More(key, rest)) == After(done + [key], rest)
  {
    if rest.Some? {
      assert done + ([key] + rest.value) == done + [key] + rest.value;
    }
  }

  lemma AfterNothing(done: seq<PathKey>, rest: Option<seq<PathKey>>)
    ensures After([], rest) == rest && After(done, Some([])) == Some(done)
  {
    assert done + [] == done;
    if rest.Some? {
      assert [] + rest.value == rest.value;
    }
  }

  /** The path of a step file, key by key. */
  method ReadPath(text: string, alnum: char -> bool) returns (r: Option<seq<PathKey>>)
    ensures r == SimplePath(text, alnum)
  {
    if text == [] || text[0] != '.' {
      return None;
    }
    var rest, out := text[1..], [];
    AfterNothing([], PathKeys(rest, alnum));
    while rest != []
      invariant SimplePath(text, alnum) == After(out, PathKeys(rest, alnum))
      decreases |rest|
    {
      var key, next;
      if rest[0] == '[' {
        var inside := rest[1..];
        var end := IndexOf(inside, ']');
        if end == |inside| || ParseU64(inside[..end]).None? {
          return None;
        }
        key, next := Item(ParseU64(inside[..end]).value), Tail(inside[end + 1..]);
      } else {
        var end := KeyEnd(rest);
        if !KeyText(rest[..end], alnum) {
          return None;
        }
        key, next := Field(rest[..end]), Tail(rest[end..]);
      }
      if next.None? {
        return None;
      }
      AfterMore(out, key, PathKeys(next.value, alnum));
      out, rest := out + [key], next.value;
    }
    AfterNothing(out, None);
    return Some(out);
  }

  // ---- What a flow shows ----

  predicate KeyCanBeRead(key: PathKey, alnum: char -> bool) {
    match key
    case Field(name) => KeyText(name, alnum)
    case Item(index) => index <= U64_MAX
  }

  /** Keys a step file can hold. */
  predicate CanBeRead(keys: seq<PathKey>, alnum: char -> bool) {
    keys != [] ==> KeyCanBeRead(keys[0], alnum) && CanBeRead(keys[1..], alnum)
  }

  function KeyShown(key: PathKey): string {
    match key
    case Field(name) => ['.'] + name
    case Item(index) => ['['] + (TimeText.Digits(index) + [']'])
  }

  function KeysShown(keys: seq<PathKey>): string {
    if keys == [] then [] else KeyShown(keys[0]) + KeysShown(keys[1..])
  }

  /** The path as the reading of a flow has it. */
  function Shown(keys: seq<PathKey>): string {
    var path := ExtractPath([Key("body")] + Keys(keys));
    if path.Some? then path.value else ""
  }

  lemma {:induction false} KeysOfMore(key: PathKey, keys: seq<PathKey>)
    ensures Keys([key] + keys) == Keys([key]) + Keys(keys)
  {
    if keys == [] {
      assert [key] + keys == [key] && Keys([]) == [];
    } else {
      var front, last := keys[..|keys| - 1], keys[|keys| - 1];
      KeysOfMore(key, front);
      assert ([key] + keys)[..|keys|] == [key] + front;
      assert ([key] + keys)[|keys|] == last;
    }
  }

  lemma OneKey(key: PathKey)
    ensures Keys([key]) == [KeyPart(key)]
  {
    assert [key][..0] == [] && Keys([]) == [];
  }

  lemma KeyHasText(key: PathKey, rest: string)
    ensures match KeyPart(key)
            case Key(text) => "." + text + rest == KeyShown(key) + rest
            case Index(text) => "[" + text + "]" + rest == KeyShown(key) + rest
  {
    match key
    case Field(name) =>
    case Item(index) => Bracketed(TimeText.Digits(index), rest);
  }

  lemma Bracketed(digits: string, rest: string)
    ensures "[" + digits + "]" + rest == ['['] + (digits + [']']) + rest
  {
  }

  lemma {:induction false} TextOfKeys(keys: seq<PathKey>)
    ensures PathText(Keys(keys)) == Some(KeysShown(keys))
  {
    if keys != [] {
      TextOfKeys(keys[1..]);
      KeysOfMore(keys[0], keys[1..]);
      OneKey(keys[0]);
      assert keys == [keys[0]] + keys[1..];
      assert Keys(keys)[1..] == Keys(keys[1..]);
      KeyHasText(keys[0], KeysShown(keys[1..]));
    }
  }

  lemma ShownIs(keys: seq<PathKey>)
    ensures Shown(keys) == if keys == [] then "." else KeysShown(keys)
  {
    TextOfKeys(keys);
    assert ([Key("body")] + Keys(keys))[1..] == Keys(keys);
    if keys != [] {
      assert KeysShown(keys) != "";
    }
  }

  // ---- Read again ----

  /** The path after the dot of its first key, if that has one. */
  function AfterDot(keys: seq<PathKey>): string {
    if keys != [] && keys[0].Field? then keys[0].name + KeysShown(keys[1..]) else KeysShown(keys)
  }

  lemma {:induction false} KeyEnds(name: string, rest: string, alnum: char -> bool)
    requires (forall i | 0 <= i < |name| :: KeyChar(name[i], alnum)) && !alnum('.') && !alnum('[')
    requires rest == [] || rest[0] == '.' || rest[0] == '['
    ensures KeyEnd(name + rest) == |name|
  {
    if name == [] {
      assert name + rest == rest;
    } else {
      assert (name + rest)[1..] == name[1..] + rest;
      KeyEnds(name[1..], rest, alnum);
    }
  }

  lemma {:induction false} IndexEnds(digits: string, rest: string)
    requires ']' !in digits
    ensures IndexOf(digits + [']'] + rest, ']') == |digits|
  {
    if digits != [] {
      assert (digits + [']'] + rest)[1..] == digits[1..] + [']'] + rest;
      IndexEnds(digits[1..], rest);
    }
  }

  lemma TailOfField(name: string, rest: string)
    requires name != []
    ensures Tail(KeyShown(Field(name)) + rest) == Some(name + rest)
    ensures (KeyShown(Field(name)) + rest)[0] == '.'
  {
    assert (KeyShown(Field(name)) + rest)[1..] == name + rest;
  }

  lemma TailOfItem(index: nat, rest: string)
    ensures Tail(KeyShown(Item(index)) + rest) == Some(KeyShown(Item(index)) + rest)
    ensures (KeyShown(Item(index)) + rest)[0] == '['
  {
  }

  lemma TailOfKeys(keys: seq<PathKey>, alnum: char -> bool)
    requires CanBeRead(keys, alnum)
    ensures Tail(KeysShown(keys)) == Some(AfterDot(keys))
    ensures KeysShown(keys) == [] || KeysShown(keys)[0] == '.' || KeysShown(keys)[0] == '['
  {
    if keys != [] {
      match keys[0]
      case Field(name) => TailOfField(name, KeysShown(keys[1..]));
      case Item(index) => TailOfItem(index, KeysShown(keys[1..]));
    }
  }

  /** A key, what follows it, and what that is as keys. */
  lemma FieldIsRead(name: string, rest: string, after: string, keys: seq<PathKey>, alnum: char -> bool)
    requires KeyText(name, alnum) && !alnum('.') && !alnum('[')
    requires Tail(rest) == Some(after) && (rest == [] || rest[0] == '.' || rest[0] == '[')
    requires PathKeys(after, alnum) == Some(keys)
    ensures PathKeys(name + rest, alnum) == Some([Field(name)] + keys)
  {
    KeyEnds(name, rest, alnum);
    assert (name + rest)[..|name|] == name && (name + rest)[|name|..] == rest;
    assert KeyChar(name[0], alnum) && (name + rest)[0] == name[0];
  }

  lemma ItemIsRead(index: nat, rest: string, after: string, keys: seq<PathKey>, alnum: char -> bool)
    requires index <= U64_MAX && Tail(rest) == Some(after) && PathKeys(after, alnum) == Some(keys)
    ensures PathKeys(KeyShown(Item(index)) + rest, alnum) == Some([Item(index)] + keys)
  {
    DigitsAreRead(index);
    Around(TimeText.Digits(index), rest);
    BracketsAreRead(KeyShown(Item(index)) + rest, TimeText.Digits(index), index, rest, after, keys, alnum);
  }

  lemma DigitsAreRead(index: nat)
    requires index <= U64_MAX
    ensures ParseU64(TimeText.Digits(index)) == Some(index) && ']' !in TimeText.Digits(index)
  {
    var digits := TimeText.Digits(index);
    assert TimeText.IsDigit(digits[0]);
  }

  lemma BracketsAreRead(all: string, digits: string, index: nat, rest: string, after: string, keys: seq<PathKey>,
                        alnum: char -> bool)
    requires all != [] && all[0] == '[' && all[1..] == digits + [']'] + rest
    requires ']' !in digits && ParseU64(digits) == Some(index)
    requires Tail(rest) == Some(after) && PathKeys(after, alnum) == Some(keys)
    ensures PathKeys(all, alnum) == Some([Item(index)] + keys)
  {
    IndexEnds(digits, rest);
    Around(digits, rest);
  }

  lemma Around(digits: string, rest: string)
    ensures var all, inside := ['['] + (digits + [']']) + rest, digits + [']'] + rest;
            && all[0] == '[' && all[1..] == inside
            && |inside| > |digits| && inside[..|digits|] == digits && inside[|digits| + 1..] == rest
  {
  }

  lemma {:induction false} KeysAreRead(keys: seq<PathKey>, alnum: char -> bool)
    requires CanBeRead(keys, alnum) && !alnum('.') && !alnum('[')
    ensures PathKeys(AfterDot(keys), alnum) == Some(keys)
  {
    if keys != [] {
      var more := keys[1..];
      KeysAreRead(more, alnum);
      TailOfKeys(more, alnum);
      assert keys == [keys[0]] + more;
      match keys[0]
      case Field(name) => FieldIsRead(name, KeysShown(more), AfterDot(more), more, alnum);
      case Item(index) => ItemIsRead(index, KeysShown(more), AfterDot(more), more, alnum);
    }
  }

  /** The path a flow shows is one a step file takes, for the same keys, exactly when it does not start with an index:
      `.[0].id` is shown as `[0].id`, which has no dot to start with. */
  lemma ShownPathIsRead(keys: seq<PathKey>, alnum: char -> bool)
    requires CanBeRead(keys, alnum) && !alnum('.') && !alnum('[')
    ensures SimplePath(Shown(keys), alnum) == Some(keys) <==> keys == [] || keys[0].Field?
    ensures keys != [] && keys[0].Item? ==> SimplePath(Shown(keys), alnum) == None
  {
    ShownIs(keys);
    KeysAreRead(keys, alnum);
    if keys == [] {
      assert "."[1..] == [];
    } else if keys[0].Field? {
      TailOfField(keys[0].name, KeysShown(keys[1..]));
      assert KeysShown(keys)[1..] == AfterDot(keys);
    } else {
      TailOfItem(keys[0].index, KeysShown(keys[1..]));
    }
  }

  /** What a step file's path is read as can be read. */
  lemma {:induction false} ReadKeysCanBeRead(rest: string, alnum: char -> bool)
    requires PathKeys(rest, alnum).Some?
    ensures CanBeRead(PathKeys(rest, alnum).value, alnum)
    decreases |rest|
  {
    if rest == [] {
    } else if rest[0] == '[' {
      var inside := rest[1..];
      ReadKeysCanBeRead(Tail(inside[IndexOf(inside, ']') + 1..]).value, alnum);
    } else {
      ReadKeysCanBeRead(Tail(rest[KeyEnd(rest)..]).value, alnum);
    }
  }

  /** So for every path of a step file: read, drawn and shown, it is read as the same keys again, or not at all, when
      it starts with an index. */
  lemma PathComesBack(text: string, alnum: char -> bool)
    requires SimplePath(text, alnum).Some? && !alnum('.') && !alnum('[')
    ensures var keys := SimplePath(text, alnum).value;
            SimplePath(Shown(keys), alnum) == if keys != [] && keys[0].Item? then None else Some(keys)
  {
    ReadKeysCanBeRead(text[1..], alnum);
    ShownPathIsRead(SimplePath(text, alnum).value, alnum);
  }

  // ---- What is a path ----

  /** A key is one or more characters that are letters, digits, `_` or `-`. */
  lemma KeyIsRead(name: string, alnum: char -> bool)
    requires '.' !in name && '[' !in name && !alnum('.') && !alnum('[')
    ensures SimplePath(['.'] + name, alnum) ==
            if name == [] then Some([])
            else if forall i | 0 <= i < |name| :: alnum(name[i]) || name[i] == '_' || name[i] == '-'
            then Some([Field(name)])
            else None
  {
    assert (['.'] + name)[1..] == name;
    NoKeyEnd(name);
    assert name[..|name|] == name && name[|name|..] == [];
    NothingMore(name[|name|..], alnum);
    MoreNothing(Field(name));
    assert forall i | 0 <= i < |name| ::
        KeyChar(name[i], alnum) <==> alnum(name[i]) || name[i] == '_' || name[i] == '-';
  }

  lemma {:induction false} NoKeyEnd(name: string)
    requires '.' !in name && '[' !in name
    ensures KeyEnd(name) == |name|
  {
    if name != [] {
      NoKeyEnd(name[1..]);
    }
  }

  lemma NothingMore(rest: string, alnum: char -> bool)
    requires rest == []
    ensures Tail(rest) == Some(rest) && PathKeys(rest, alnum) == Some([])
  {
  }

  lemma MoreNothing(key: PathKey)
    ensures More(key, Some([])) == Some([key])
  {
    var nothing: seq<PathKey> := [];
    assert [key] + nothing == [key];
  }

  lemma IndexAlone(inside: string, alnum: char -> bool)
    requires ']' !in inside
    ensures SimplePath(['.', '['] + inside + [']'], alnum) ==
            if ParseU64(inside).Some? then Some([Item(ParseU64(inside).value)]) else None
  {
    var rest := inside + [']'];
    assert (['.', '['] + inside + [']'])[1..] == ['['] + rest;
    assert rest + [] == rest;
    IndexEnds(inside, []);
    assert (['['] + rest)[1..] == rest && rest[..|inside|] == inside && rest[|inside| + 1..] == [];
    NothingMore(rest[|inside| + 1..], alnum);
    if ParseU64(inside).Some? {
      MoreNothing(Item(ParseU64(inside).value));
    }
  }

  predicate IsNumber(digits: string) {
    digits != [] && forall i | 0 <= i < |digits| :: '0' <= digits[i] <= '9'
  }

  lemma NumberIs(digits: string)
    ensures IsNumber(digits) <==> digits != [] && TimeText.AllDigits(digits)
  {
  }

  /** An index is a number of 64 bits, with a plus sign in front or not. */
  lemma IndexIsRead(digits: string, alnum: char -> bool)
    requires ']' !in digits && (digits == [] || digits[0] != '+')
    ensures var read :=
              if IsNumber(digits) && (NumberIs(digits); TimeText.Value(digits) <= 18_446_744_073_709_551_615)
              then Some([Item((NumberIs(digits); TimeText.Value(digits)))]) else None;
            && SimplePath(['.', '['] + digits + [']'], alnum) == read
            && SimplePath(['.', '['] + (['+'] + digits) + [']'], alnum) == read
  {
    NumberIs(digits);
    IndexAlone(digits, alnum);
    IndexAlone(['+'] + digits, alnum);
    assert (['+'] + digits)[1..] == digits;
  }

  lemma {:induction false} EndsBefore(s: string, c: char)
    requires c != '.'
    ensures if IndexOf(s, c) < |s| then IndexOf(s + ['.'], c) == IndexOf(s, c)
            else IndexOf(s + ['.'], c) == |s| + 1
  {
    if s != [] && s[0] != c {
      assert (s + ['.'])[1..] == s[1..] + ['.'];
      EndsBefore(s[1..], c);
    } else if s == [] {
      assert [] + ['.'] == ['.'] && ['.'][1..] == [];
    }
  }

  lemma {:induction false} KeyEndBefore(s: string)
    ensures KeyEnd(s + ['.']) == KeyEnd(s)
  {
    if s != [] && s[0] != '.' && s[0] != '[' {
      assert (s + ['.'])[1..] == s[1..] + ['.'];
      KeyEndBefore(s[1..]);
    }
  }

  /** What follows, with a dot after it: nothing that could follow, or that with a dot. */
  lemma TailBefore(s: string)
    ensures Tail(s + ['.']).None? || (Tail(s + ['.']) == Some(Tail(s + ['.']).value)
              && exists shorter: string :: Tail(s + ['.']).value == shorter + ['.'] && |shorter| <= |s|)
  {
    if s != [] && s[0] == '.' {
      assert (s + ['.'])[1..] == s[1..] + ['.'];
    }
  }

  lemma {:induction false} DotAtTheEnd(s: string, alnum: char -> bool)
    ensures PathKeys(s + ['.'], alnum) == None
    decreases |s|
  {
    var all := s + ['.'];
    if s == [] {
      assert all == ['.'] && KeyEnd(all) == 0;
    } else if s[0] == '[' {
      var inside := s[1..];
      assert all[1..] == inside + ['.'];
      EndsBefore(inside, ']');
      var end := IndexOf(inside, ']');
      if end < |inside| {
        var after := inside[end + 1..];
        assert all[1..][end + 1..] == after + ['.'];
        TailBefore(after);
        if Tail(after + ['.']).Some? {
          var shorter: string :| Tail(after + ['.']).value == shorter + ['.'] && |shorter| <= |after|;
          DotAtTheEnd(shorter, alnum);
        }
      }
    } else {
      KeyEndBefore(s);
      var end := KeyEnd(s);
      var after := s[end..];
      assert all[end..] == after + ['.'];
      TailBefore(after);
      if end > 0 && Tail(after + ['.']).Some? {
        var shorter: string :| Tail(after + ['.']).value == shorter + ['.'] && |shorter| <= |after|;
        DotAtTheEnd(shorter, alnum);
      }
    }
  }

  /** A path starts with a dot, and but for the dot alone does not end in one. */
  lemma DotsOfAPath(text: string, alnum: char -> bool)
    requires SimplePath(text, alnum).Some?
    ensures text == "." || (|text| > 1 && text[0] == '.' && text[|text| - 1] != '.')
  {
    if |text| > 1 && text[|text| - 1] == '.' {
      assert text[1..] == text[1..|text| - 1] + ['.'];
      DotAtTheEnd(text[1..|text| - 1], alnum);
    }
  }
}

/** A URL with `{{variables}}` put where it holds their values, and what that means once they are filled in. */
module UrlTemplate {
  import opened Wrappers

  datatype Variable = Variable(name: string, value: string)

  predicate Distinct(vars: seq<Variable>) {
    forall i, j | 0 <= i < j < |vars| :: vars[i].name != vars[j].name
  }

  // ---- The variables of an environment ----

  /** The last value of `name` among `pairs` that is not empty. */
  function LastValue(pairs: seq<Variable>, name: string): Option<string> {
    if pairs == [] then None
    else
      var last := pairs[|pairs| - 1];
      if last.name == name && last.value != "" then Some(last.value) else LastValue(pairs[..|pairs| - 1], name)
  }

  function Removed(vars: seq<Variable>, name: string): (r: seq<Variable>)
    requires Distinct(vars)
    ensures Distinct(r) && |r| <= |vars|
    ensures forall v :: v in r <==> v in vars && v.name != name
  {
    if vars == [] then []
    else
      var first := vars[..|vars| - 1];
      assert vars == first + [vars[|vars| - 1]];
      if vars[|vars| - 1].name == name then Removed(first, name) else Removed(first, name) + [vars[|vars| - 1]]
  }

  lemma AppendedIsDistinct(vars: seq<Variable>, v: Variable)
    requires Distinct(vars) && forall w | w in vars :: w.name != v.name
    ensures Distinct(vars + [v])
  {
    forall a, b | 0 <= a < b < |vars + [v]| ensures (vars + [v])[a].name != (vars + [v])[b].name {
      assert (vars + [v])[a] == vars[a] && vars[a] in vars;
    }
  }

  /** `b` has a value that is not empty after every one of `a`. */
  ghost predicate SetLater(pairs: seq<Variable>, a: string, b: string) {
    exists i :: 0 <= i < |pairs| && pairs[i].name == b && pairs[i].value != ""
                && forall j | i <= j < |pairs| && pairs[j].name == a :: pairs[j].value == ""
  }

  ghost predicate InOrder(later: (string, string) -> bool, vars: seq<Variable>) {
    forall a, b | 0 <= a < b < |vars| :: later(vars[a].name, vars[b].name)
  }

  lemma AppendedInOrder(later: (string, string) -> bool, vars: seq<Variable>, v: Variable)
    requires InOrder(later, vars) && forall w | w in vars :: later(w.name, v.name)
    ensures InOrder(later, vars + [v])
  {
    forall a, b | 0 <= a < b < |vars + [v]| ensures later((vars + [v])[a].name, (vars + [v])[b].name) {
      assert (vars + [v])[a] == vars[a] && vars[a] in vars;
    }
  }

  lemma {:induction false} RemovedInOrder(later: (string, string) -> bool, vars: seq<Variable>, name: string)
    requires Distinct(vars) && InOrder(later, vars)
    ensures InOrder(later, Removed(vars, name))
  {
    if vars != [] {
      var front, last := vars[..|vars| - 1], vars[|vars| - 1];
      RemovedInOrder(later, front, name);
      forall w | w in Removed(front, name) ensures later(w.name, last.name) {
        var k :| 0 <= k < |front| && front[k] == w;
        assert vars[k] == w;
      }
      AppendedInOrder(later, Removed(front, name), last);
    }
  }

  /** One more pair sets its own name last, if it has a value, and leaves the others as they were. */
  lemma OneMorePair(pairs: seq<Variable>, more: Variable, a: string, b: string)
    requires a != b && (a != more.name || more.value == "")
    requires (b == more.name && more.value != "") || SetLater(pairs, a, b)
    ensures SetLater(pairs + [more], a, b)
  {
    var longer := pairs + [more];
    if b == more.name && more.value != "" {
      assert longer[|pairs|] == more;
    } else {
      var i :| 0 <= i < |pairs| && pairs[i].name == b && pairs[i].value != ""
               && forall j | i <= j < |pairs| && pairs[j].name == a :: pairs[j].value == "";
      assert longer[i] == pairs[i];
      forall j | i <= j < |longer| && longer[j].name == a ensures longer[j].value == "" {
        assert j < |pairs| ==> longer[j] == pairs[j];
      }
    }
  }

  ghost predicate AreVariables(pairs: seq<Variable>, vars: seq<Variable>) {
    && Distinct(vars)
    && (forall v :: v in vars <==> LastValue(pairs, v.name) == Some(v.value))
    && (forall a, b | 0 <= a < b < |vars| :: SetLater(pairs, vars[a].name, vars[b].name))
  }

  lemma EmptyPair(pairs: seq<Variable>, more: Variable, vars: seq<Variable>)
    requires AreVariables(pairs, vars) && more.value == ""
    ensures AreVariables(pairs + [more], vars)
  {
    assert (pairs + [more])[..|pairs|] == pairs;
    forall a, b | 0 <= a < b < |vars| ensures SetLater(pairs + [more], vars[a].name, vars[b].name) {
      OneMorePair(pairs, more, vars[a].name, vars[b].name);
    }
  }

  lemma PairWithValue(pairs: seq<Variable>, more: Variable, vars: seq<Variable>)
    requires AreVariables(pairs, vars) && more.value != ""
    ensures AreVariables(pairs + [more], Removed(vars, more.name) + [more])
  {
    var kept := Removed(vars, more.name);
    assert (pairs + [more])[..|pairs|] == pairs;
    AppendedIsDistinct(kept, more);
    RemovedInOrder((a, b) => SetLater(pairs, a, b), vars, more.name);
    forall a, b | 0 <= a < b < |kept + [more]|
      ensures SetLater(pairs + [more], (kept + [more])[a].name, (kept + [more])[b].name)
    {
      assert (kept + [more])[a] == kept[a] && kept[a] in kept;
      assert b < |kept| ==> (kept + [more])[b] == kept[b];
      OneMorePair(pairs, more, kept[a].name, (kept + [more])[b].name);
    }
  }

  /** Each name once, with its last value that is not empty, in the order of those. */
  method Variables(pairs: seq<Variable>) returns (vars: seq<Variable>)
    ensures Distinct(vars)
    ensures forall v :: v in vars <==> LastValue(pairs, v.name) == Some(v.value)
    ensures forall a, b | 0 <= a < b < |vars| :: SetLater(pairs, vars[a].name, vars[b].name)
  {
    vars := [];
    var i := 0;
    while i < |pairs|
      invariant 0 <= i <= |pairs| && AreVariables(pairs[..i], vars)
    {
      assert pairs[..i + 1] == pairs[..i] + [pairs[i]];
      if pairs[i].value != "" {
        PairWithValue(pairs[..i], pairs[i], vars);
        vars := Removed(vars, pairs[i].name) + [pairs[i]];
      } else {
        EmptyPair(pairs[..i], pairs[i], vars);
      }
      i := i + 1;
    }
    assert pairs[..i] == pairs;
  }

  // ---- Where variables go ----

  predicate Separator(c: char) {
    c == '/' || c == '?' || c == '&' || c == '=' || c == '#'
  }

  predicate EndsInSlash(s: string) {
    s != [] && s[|s| - 1] == '/'
  }

  function TrimSlashes(s: string): (r: string)
    ensures r <= s && (r == s <==> !EndsInSlash(s)) && !EndsInSlash(r)
  {
    if EndsInSlash(s) then TrimSlashes(s[..|s| - 1]) else s
  }

  predicate IsAddress(value: string) {
    "http://" <= value || "https://" <= value
  }

  /** The URL is `base`, or goes on with a path, a query or a fragment. */
  predicate IsUnder(url: string, base: string) {
    base <= url && (|url| == |base| || url[|base|] == '/' || url[|base|] == '?' || url[|base|] == '#')
  }

  /** The value is an address, and the URL is under it. */
  predicate IsBase(url: string, value: string) {
    IsAddress(value) && IsUnder(url, TrimSlashes(value))
  }

  function Score(url: string, v: Variable): Option<nat> {
    if IsBase(url, v.value) then Some(|TrimSlashes(v.value)|) else None
  }

  /** How long each variable's base is, for those that are one. */
  function Scores(url: string, vars: seq<Variable>): (r: seq<Option<nat>>)
    ensures |r| == |vars| && forall k | 0 <= k < |vars| :: r[k] == Score(url, vars[k])
  {
    if vars == [] then [] else Scores(url, vars[..|vars| - 1]) + [Score(url, vars[|vars| - 1])]
  }

  /** Where the greatest score is; the last place among equals. */
  function LastMax(scores: seq<Option<nat>>): (r: Option<nat>)
    ensures r.None? ==> forall k | 0 <= k < |scores| :: scores[k].None?
    ensures r.Some? ==> r.value < |scores| && scores[r.value].Some?
    ensures r.Some? ==> forall k | 0 <= k < |scores| && scores[k].Some? ::
      scores[k].value <= scores[r.value].value && (scores[k] == scores[r.value] ==> k <= r.value)
  {
    if scores == [] then None
    else
      var n := |scores| - 1;
      var earlier := LastMax(scores[..n]);
      if scores[n].Some? && (earlier.None? || scores[earlier.value].value <= scores[n].value) then Some(n) else earlier
  }

  /** The variable to start the URL with: the longest base, the last among equals. */
  function Base(url: string, vars: seq<Variable>): (r: Option<nat>)
    ensures r.Some? ==> r.value < |vars| && IsBase(url, vars[r.value].value)
    ensures r.None? ==> forall k | 0 <= k < |vars| :: !IsBase(url, vars[k].value)
  {
    var scores := Scores(url, vars);
    assert forall k | 0 <= k < |vars| :: scores[k] == Score(url, vars[k]);
    LastMax(scores)
  }

  /** The base chosen is at least as long as every other, and after those as long. */
  lemma BaseIsLongest(url: string, vars: seq<Variable>, k: nat)
    requires k < |vars| && IsBase(url, vars[k].value)
    ensures var r := Base(url, vars);
            && r.Some? && |TrimSlashes(vars[k].value)| <= |TrimSlashes(vars[r.value].value)|
            && (|TrimSlashes(vars[k].value)| == |TrimSlashes(vars[r.value].value)| ==> k <= r.value)
  {
    var scores := Scores(url, vars);
    assert scores[k] == Score(url, vars[k]);
  }

  /** The first variable of at least six characters that holds exactly `word`. */
  function Known(word: string, vars: seq<Variable>): (r: Option<string>)
    ensures r.Some? ==> Variable(r.value, word) in vars && |word| >= 6
  {
    if vars == [] then None
    else if |vars[0].value| >= 6 && vars[0].value == word then Some(vars[0].name)
    else Known(word, vars[1..])
  }

  // ---- The templated URL ----

  /** A piece of it: text of the URL, or a placeholder. */
  datatype Piece = Text(text: string) | Placeholder(name: string)

  function Segment(word: string, vars: seq<Variable>): Piece {
    if Known(word, vars).Some? then Placeholder(Known(word, vars).value) else Text(word)
  }

  /** A segment and its separator, before `more`. */
  function Cut(word: string, c: char, more: seq<Piece>, vars: seq<Variable>): seq<Piece> {
    [Segment(word, vars), Text([c])] + more
  }

  /** The pieces of the path and query `rest`, after the part `word` of a segment. */
  function Segments(rest: string, word: string, vars: seq<Variable>): seq<Piece> {
    if rest == [] then [Segment(word, vars)]
    else if Separator(rest[0]) then Cut(word, rest[0], Segments(rest[1..], [], vars), vars)
    else Segments(rest[1..], word + [rest[0]], vars)
  }

  function Templated(url: string, vars: seq<Variable>): seq<Piece> {
    match Base(url, vars)
    case Some(i) => [Placeholder(vars[i].name)] + Segments(url[|TrimSlashes(vars[i].value)|..], [], vars)
    case None => Segments(url, [], vars)
  }

  function Braced(name: string): string {
    "{{" + name + "}}"
  }

  function Shown(p: Piece): string {
    match p
    case Text(text) => text
    case Placeholder(name) => Braced(name)
  }

  function Render(pieces: seq<Piece>): string {
    if pieces == [] then [] else Render(pieces[..|pieces| - 1]) + Shown(pieces[|pieces| - 1])
  }

  /** `used` with `name`, unless it has it. */
  function Note(used: seq<string>, name: string): seq<string> {
    if name in used then used else used + [name]
  }

  function Used(pieces: seq<Piece>): seq<string> {
    if pieces == [] then []
    else
      var earlier, p := Used(pieces[..|pieces| - 1]), pieces[|pieces| - 1];
      if p.Placeholder? then Note(earlier, p.name) else earlier
  }

  /** Pieces done, with a segment and its separator after them. */
  lemma CutExtends(done: seq<Piece>, word: string, c: char, more: seq<Piece>, vars: seq<Variable>)
    ensures var p := Segment(word, vars);
            var longer := done + [p, Text([c])];
            && done + Cut(word, c, more, vars) == longer + more
            && Render(longer) == Render(done) + (Shown(p) + [c])
            && Used(longer) == if p.Placeholder? then Note(Used(done), p.name) else Used(done)
  {
    var p := Segment(word, vars);
    var one := done + [p];
    assert one[..|one| - 1] == done;
    assert done + [p, Text([c])] == one + [Text([c])] && (one + [Text([c])])[..|one|] == one;
  }

  /** A character moved from what is left to what is read. */
  lemma Shift(word: string, rest: string)
    requires rest != []
    ensures word + rest == word + [rest[0]] + rest[1..]
  {
  }

  lemma Associates(a: string, b: string, c: string)
    ensures (a + b) + c == a + (b + c)
  {
  }

  /** A word, or the placeholder of the variable that holds it, which is then used. */
  method Place(word: string, vars: seq<Variable>, before: seq<string>) returns (text: string, used: seq<string>)
    ensures var p := Segment(word, vars);
            text == Shown(p) && used == if p.Placeholder? then Note(before, p.name) else before
  {
    var known := Known(word, vars);
    if known.Some? {
      return Braced(known.value), Note(before, known.value);
    }
    return word, before;
  }

  lemma FirstPiece(name: string)
    ensures Render([Placeholder(name)]) == Braced(name) && Used([Placeholder(name)]) == Note([], name)
  {
    var one := [Placeholder(name)];
    assert one[..0] == [];
    assert [] + Braced(name) == Braced(name);
  }

  /** The URL part of `templatize`: the templated URL and the variables it uses. */
  method Templatize(url: string, vars: seq<Variable>) returns (out: string, used: seq<string>)
    ensures out == Render(Templated(url, vars)) && used == Used(Templated(url, vars))
  {
    var base := Base(url, vars);
    if base.Some? {
      var v := vars[base.value];
      FirstPiece(v.name);
      out, used := AddSegments(url[|TrimSlashes(v.value)|..], vars, Braced(v.name), Note([], v.name),
                               [Placeholder(v.name)]);
    } else {
      assert [] + Segments(url, [], vars) == Segments(url, [], vars);
      out, used := AddSegments(url, vars, "", [], []);
    }
  }

  /** The segments of the path and query, after what is done. */
  method AddSegments(rest: string, vars: seq<Variable>, before: string, noted: seq<string>, ghost first: seq<Piece>)
      returns (out: string, used: seq<string>)
    requires before == Render(first) && noted == Used(first)
    ensures out == Render(first + Segments(rest, [], vars)) && used == Used(first + Segments(rest, [], vars))
  {
    out, used := before, noted;
    ghost var done := first;
    var word, i := "", 0;
    assert rest[0..] == rest;
    while i < |rest|
      invariant 0 <= i <= |rest|
      invariant out == Render(done) && used == Used(done)
      invariant first + Segments(rest, [], vars) == done + Segments(rest[i..], word, vars)
    {
      var c := rest[i];
      assert rest[i..][1..] == rest[i + 1..];
      if Separator(c) {
        var text;
        text, used := Place(word, vars, used);
        Associates(out, text, [c]);
        out := out + text + [c];
        CutExtends(done, word, c, Segments(rest[i + 1..], [], vars), vars);
        done := done + [Segment(word, vars), Text([c])];
        word := "";
      } else {
        word := word + [c];
      }
      i := i + 1;
    }
    var text;
    text, used := Place(word, vars, used);
    out := out + text;
    LastSegment(done, word, vars);
    assert rest[i..] == [];
  }

  lemma LastSegment(done: seq<Piece>, word: string, vars: seq<Variable>)
    ensures var p, all := Segment(word, vars), done + Segments([], word, vars);
            && Render(all) == Render(done) + Shown(p)
            && Used(all) == if p.Placeholder? then Note(Used(done), p.name) else Used(done)
  {
    var all := done + [Segment(word, vars)];
    assert all[..|all| - 1] == done;
  }

  // ---- What it means ----

  /** The value of the first variable called `name`. */
  function ValueOf(name: string, vars: seq<Variable>): Option<string> {
    if vars == [] then None
    else if vars[0].name == name then Some(vars[0].value)
    else ValueOf(name, vars[1..])
  }

  lemma {:induction false} ValueOfMember(v: Variable, vars: seq<Variable>)
    requires v in vars && Distinct(vars)
    ensures ValueOf(v.name, vars) == Some(v.value)
  {
    if vars[0] != v {
      assert vars[0].name != v.name by {
        var k :| 0 <= k < |vars| && vars[k] == v;
      }
      ValueOfMember(v, vars[1..]);
    }
  }

  function Filled(p: Piece, vars: seq<Variable>): string {
    match p
    case Text(text) => text
    case Placeholder(name) => if ValueOf(name, vars).Some? then ValueOf(name, vars).value else Shown(p)
  }

  /** The pieces with each placeholder filled in. */
  function Meaning(pieces: seq<Piece>, vars: seq<Variable>): string {
    if pieces == [] then [] else Filled(pieces[0], vars) + Meaning(pieces[1..], vars)
  }

  lemma CutMeans(word: string, c: char, more: seq<Piece>, vars: seq<Variable>)
    ensures Meaning(Cut(word, c, more, vars), vars) == Filled(Segment(word, vars), vars) + ([c] + Meaning(more, vars))
  {
    var pieces := Cut(word, c, more, vars);
    assert pieces[1..] == [Text([c])] + more && ([Text([c])] + more)[1..] == more;
  }

  lemma SegmentMeans(word: string, vars: seq<Variable>)
    requires Distinct(vars)
    ensures Filled(Segment(word, vars), vars) == word
    ensures Meaning([Segment(word, vars)], vars) == word
  {
    if Known(word, vars).Some? {
      ValueOfMember(Variable(Known(word, vars).value, word), vars);
    }
    assert [Segment(word, vars)][1..] == [];
    assert word + [] == word;
  }

  lemma CutMeansWhole(word: string, c: char, rest: string, more: seq<Piece>, vars: seq<Variable>)
    requires Distinct(vars) && Meaning(more, vars) == [] + rest
    ensures Meaning(Cut(word, c, more, vars), vars) == word + ([c] + rest)
  {
    CutMeans(word, c, more, vars);
    SegmentMeans(word, vars);
    assert [] + rest == rest;
  }

  lemma {:induction false} SegmentsMean(rest: string, word: string, vars: seq<Variable>)
    requires Distinct(vars)
    ensures Meaning(Segments(rest, word, vars), vars) == word + rest
    decreases |rest|
  {
    SegmentMeans(word, vars);
    if rest == [] {
      assert word + rest == word;
    } else if Separator(rest[0]) {
      SegmentsMean(rest[1..], [], vars);
      CutMeansWhole(word, rest[0], rest[1..], Segments(rest[1..], [], vars), vars);
      assert rest == [rest[0]] + rest[1..];
    } else {
      SegmentsMean(rest[1..], word + [rest[0]], vars);
      Shift(word, rest);
    }
  }

  /** Filling in the placeholders gives the URL back, for every URL, exactly when the variable it starts with, if it
      starts with one, has no slash at the end of its value. */
  lemma MeaningIsKept(url: string, vars: seq<Variable>)
    requires Distinct(vars)
    ensures Meaning(Templated(url, vars), vars) == url
            <==> (Base(url, vars).Some? ==> !EndsInSlash(vars[Base(url, vars).value].value))
  {
    match Base(url, vars)
    case None =>
      SegmentsMean(url, [], vars);
      assert [] + url == url;
    case Some(i) =>
      MeaningWithBase(url, vars, i);
      KeptWithBase(url, vars[i].value);
  }

  lemma KeptWithBase(url: string, value: string)
    requires TrimSlashes(value) <= url
    ensures value + url[|TrimSlashes(value)|..] == url <==> !EndsInSlash(value)
  {
    var base := TrimSlashes(value);
    SameBefore(value, base, url[|base|..]);
    assert url == base + url[|base|..];
  }

  lemma SameBefore(a: string, b: string, rest: string)
    ensures a + rest == b + rest <==> a == b
  {
    if a + rest == b + rest {
      assert (a + rest)[..|a|] == (b + rest)[..|b|];
    }
  }

  lemma MeaningWithBase(url: string, vars: seq<Variable>, i: nat)
    requires Distinct(vars) && Base(url, vars) == Some(i)
    ensures Meaning(Templated(url, vars), vars) == vars[i].value + url[|TrimSlashes(vars[i].value)|..]
  {
    var rest := url[|TrimSlashes(vars[i].value)|..];
    SegmentsMean(rest, [], vars);
    ValueOfMember(vars[i], vars);
    assert Templated(url, vars)[1..] == Segments(rest, [], vars);
    assert [] + rest == rest;
  }

  // ---- The same on text ----

  predicate Doubled(s: string, c: char) {
    |s| >= 2 && s[0] == c && s[1] == c
  }

  /** The position of the first `}}`. */
  function CloseAt(s: string): (i: nat)
    ensures i <= |s|
  {
    if s == [] || Doubled(s, '}') then 0 else 1 + CloseAt(s[1..])
  }

  /** What the text starts with, filled in, and how many characters that takes: a placeholder, or one character. */
  function Head(s: string, vars: seq<Variable>): (r: (string, nat))
    requires s != []
    ensures 0 < r.1 <= |s|
  {
    if Doubled(s, '{') then
      var end := CloseAt(s[2..]);
      if end + 4 <= |s| && ValueOf(s[2..end + 2], vars).Some? then (ValueOf(s[2..end + 2], vars).value, end + 4)
      else ([s[0]], 1)
    else ([s[0]], 1)
  }

  /** `{{name}}` replaced by the value of `name` wherever there is one, from left to right. */
  function Substitute(s: string, vars: seq<Variable>): string
    decreases |s|
  {
    if s == [] then [] else Head(s, vars).0 + Substitute(s[Head(s, vars).1..], vars)
  }

  predicate OpenAt(s: string, i: nat) {
    i + 1 < |s| && s[i] == '{' && s[i + 1] == '{'
  }

  /** No `{{` anywhere. */
  predicate NoOpen(s: string) {
    forall i: nat | i < |s| :: !OpenAt(s, i)
  }

  lemma NoOpenSuffix(s: string, n: nat)
    requires NoOpen(s) && n <= |s|
    ensures NoOpen(s[n..])
  {
    forall i: nat | i < |s[n..]| ensures !OpenAt(s[n..], i) {
      assert OpenAt(s[n..], i) ==> OpenAt(s, n + i);
    }
  }

  lemma NoOpenPrefix(s: string, t: string)
    requires NoOpen(s + t)
    ensures NoOpen(s)
  {
    forall i: nat | i < |s| ensures !OpenAt(s, i) {
      assert OpenAt(s, i) ==> OpenAt(s + t, i);
    }
  }

  lemma {:induction false} CloseAfterName(name: string, tail: string)
    requires '}' !in name
    ensures CloseAt(name + "}}" + tail) == |name|
  {
    var s := name + "}}" + tail;
    if name == [] {
      assert s == "}}" + tail;
    } else {
      assert s[1..] == name[1..] + "}}" + tail;
      CloseAfterName(name[1..], tail);
    }
  }

  lemma PlaceholderSubstitutes(name: string, value: string, tail: string, vars: seq<Variable>)
    requires '}' !in name && ValueOf(name, vars) == Some(value)
    ensures Substitute("{{" + name + "}}" + tail, vars) == value + Substitute(tail, vars)
  {
    var s := "{{" + name + "}}" + tail;
    assert s[2..] == name + "}}" + tail;
    CloseAfterName(name, tail);
    assert s[2..|name| + 2] == name && s[|name| + 4..] == tail;
    assert Head(s, vars) == (value, |name| + 4);
  }

  lemma {:induction false} TextSubstitutes(word: string, tail: string, vars: seq<Variable>)
    requires NoOpen(word)
    requires word != [] && word[|word| - 1] == '{' ==> tail == [] || tail[0] != '{'
    ensures Substitute(word + tail, vars) == word + Substitute(tail, vars)
  {
    if word == [] {
      assert word + tail == tail;
    } else {
      assert (word + tail)[1..] == word[1..] + tail;
      assert !OpenAt(word, 0) && !Doubled(word + tail, '{');
      NoOpenSuffix(word, 1);
      TextSubstitutes(word[1..], tail, vars);
      SubstituteChar(word + tail, vars);
      Associates([word[0]], word[1..], Substitute(tail, vars));
      assert word == [word[0]] + word[1..];
    }
  }

  lemma SubstituteChar(s: string, vars: seq<Variable>)
    requires s != [] && !Doubled(s, '{')
    ensures Substitute(s, vars) == [s[0]] + Substitute(s[1..], vars)
  {
  }

  predicate PlainNames(vars: seq<Variable>) {
    forall i | 0 <= i < |vars| :: '}' !in vars[i].name
  }

  lemma RenderSnoc(pieces: seq<Piece>, p: Piece)
    ensures Render(pieces + [p]) == Render(pieces) + Shown(p)
  {
    assert (pieces + [p])[..|pieces|] == pieces;
  }

  lemma {:induction false} RenderCons(p: Piece, pieces: seq<Piece>)
    ensures Render([p] + pieces) == Shown(p) + Render(pieces)
  {
    if pieces == [] {
      assert [p] + pieces == [] + [p];
      RenderSnoc([], p);
    } else {
      var init, last := pieces[..|pieces| - 1], pieces[|pieces| - 1];
      assert pieces == init + [last] && [p] + pieces == ([p] + init) + [last];
      RenderSnoc(init, last);
      RenderSnoc([p] + init, last);
      RenderCons(p, init);
      Associates(Shown(p), Render(init), Shown(last));
    }
  }

  /** A piece that substitutes by itself. */
  predicate Calm(p: Piece, vars: seq<Variable>) {
    match p
    case Text(text) => NoOpen(text)
    case Placeholder(name) => '}' !in name && ValueOf(name, vars).Some?
  }

  predicate EndsOpen(p: Piece) {
    p.Text? && p.text != [] && p.text[|p.text| - 1] == '{'
  }

  /** No piece starts a `{{` that the next one would finish. */
  predicate Tame(pieces: seq<Piece>, vars: seq<Variable>) {
    pieces != [] ==>
      && Calm(pieces[0], vars)
      && (EndsOpen(pieces[0]) && |pieces| > 1 ==> pieces[1].Text? && pieces[1].text != [] && pieces[1].text[0] != '{')
      && Tame(pieces[1..], vars)
  }

  lemma {:induction false} TameSubstitutes(pieces: seq<Piece>, vars: seq<Variable>)
    requires Tame(pieces, vars)
    ensures Substitute(Render(pieces), vars) == Meaning(pieces, vars)
  {
    if pieces == [] {
    } else {
      var p, more := pieces[0], pieces[1..];
      assert pieces == [p] + more;
      RenderCons(p, more);
      TameSubstitutes(more, vars);
      if EndsOpen(p) {
        RenderStarts(more);
      }
      PieceSubstitutes(p, Render(more), vars);
    }
  }

  lemma PieceSubstitutes(p: Piece, tail: string, vars: seq<Variable>)
    requires Calm(p, vars) && (EndsOpen(p) ==> tail == [] || tail[0] != '{')
    ensures Substitute(Shown(p) + tail, vars) == Filled(p, vars) + Substitute(tail, vars)
  {
    match p
    case Text(text) => TextSubstitutes(text, tail, vars);
    case Placeholder(name) => PlaceholderSubstitutes(name, ValueOf(name, vars).value, tail, vars);
  }

  lemma RenderStarts(pieces: seq<Piece>)
    requires pieces != [] ==> pieces[0].Text? && pieces[0].text != [] && pieces[0].text[0] != '{'
    ensures Render(pieces) == [] || Render(pieces)[0] != '{'
  {
    if pieces != [] {
      assert pieces == [pieces[0]] + pieces[1..];
      RenderCons(pieces[0], pieces[1..]);
    }
  }

  lemma SegmentIsCalm(word: string, vars: seq<Variable>)
    requires Distinct(vars) && PlainNames(vars) && NoOpen(word)
    ensures Calm(Segment(word, vars), vars)
  {
    if Known(word, vars).Some? {
      var v := Variable(Known(word, vars).value, word);
      ValueOfMember(v, vars);
      var k :| 0 <= k < |vars| && vars[k] == v;
    }
  }

  lemma CutIsTame(word: string, c: char, more: seq<Piece>, vars: seq<Variable>)
    requires Distinct(vars) && PlainNames(vars) && NoOpen(word) && Separator(c) && Tame(more, vars)
    ensures Tame(Cut(word, c, more, vars), vars)
  {
    SegmentIsCalm(word, vars);
    var pieces := Cut(word, c, more, vars);
    assert pieces[1..] == [Text([c])] + more && ([Text([c])] + more)[1..] == more;
  }

  lemma {:induction false} SegmentsAreTame(rest: string, word: string, vars: seq<Variable>)
    requires Distinct(vars) && PlainNames(vars) && NoOpen(word + rest)
    ensures Tame(Segments(rest, word, vars), vars)
    decreases |rest|
  {
    NoOpenPrefix(word, rest);
    if rest == [] {
      SegmentIsCalm(word, vars);
      assert [Segment(word, vars)][1..] == [];
    } else if Separator(rest[0]) {
      NoOpenSuffix(word + rest, |word| + 1);
      assert (word + rest)[|word| + 1..] == rest[1..] && [] + rest[1..] == rest[1..];
      SegmentsAreTame(rest[1..], [], vars);
      CutIsTame(word, rest[0], Segments(rest[1..], [], vars), vars);
    } else {
      Shift(word, rest);
      SegmentsAreTame(rest[1..], word + [rest[0]], vars);
    }
  }

  lemma TemplatedIsTame(url: string, vars: seq<Variable>)
    requires Distinct(vars) && PlainNames(vars) && NoOpen(url)
    ensures Tame(Templated(url, vars), vars)
  {
    match Base(url, vars)
    case None =>
      assert [] + url == url;
      SegmentsAreTame(url, [], vars);
    case Some(i) =>
      var n := |TrimSlashes(vars[i].value)|;
      NoOpenSuffix(url, n);
      assert [] + url[n..] == url[n..];
      SegmentsAreTame(url[n..], [], vars);
      ValueOfMember(vars[i], vars);
      assert Templated(url, vars)[1..] == Segments(url[n..], [], vars);
  }

  /** On text: replacing each `{{name}}` of the templated URL by its variable's value gives the URL back, when the URL
      has no `{{` of its own, no variable's name has a `}`, and the base has no slash at its end. */
  lemma SubstitutingGivesTheUrlBack(url: string, vars: seq<Variable>)
    requires Distinct(vars) && PlainNames(vars) && NoOpen(url)
    ensures Substitute(Render(Templated(url, vars)), vars) == url
            <==> (Base(url, vars).Some? ==> !EndsInSlash(vars[Base(url, vars).value].value))
  {
    TemplatedIsTame(url, vars);
    TameSubstitutes(Templated(url, vars), vars);
    MeaningIsKept(url, vars);
  }

  // ---- On text, for every URL ----

  /** No name could reach over the end of a segment, or end before its placeholder does. */
  predicate NamesStayInside(vars: seq<Variable>) {
    PlainNames(vars) && forall i, k | 0 <= i < |vars| && 0 <= k < |vars[i].name| :: !Separator(vars[i].name[k])
  }

  /** No value holds a placeholder of a variable; `NoOpenIsSettled` for those without a `{{`. */
  predicate Settled(vars: seq<Variable>) {
    forall i | 0 <= i < |vars| :: Substitute(vars[i].value, vars) == vars[i].value
  }

  lemma NoOpenIsSettled(s: string, vars: seq<Variable>)
    requires NoOpen(s)
    ensures Substitute(s, vars) == s
  {
    TextSubstitutes(s, [], vars);
    assert s + [] == s;
  }

  /** Before a character that closes nothing, a `}}` is found where it was, or not at all. */
  lemma {:induction false} CloseBefore(a: string, c: char, b: string)
    requires c != '}'
    ensures if CloseAt(a) + 2 <= |a| then CloseAt(a + [c] + b) == CloseAt(a) else CloseAt(a + [c] + b) > |a|
  {
    if a != [] && !Doubled(a, '}') {
      assert (a + [c] + b)[1..] == a[1..] + [c] + b;
      CloseBefore(a[1..], c, b);
    }
  }

  lemma {:induction false} ValueOfName(name: string, vars: seq<Variable>)
    requires ValueOf(name, vars).Some?
    ensures exists i :: 0 <= i < |vars| && vars[i] == Variable(name, ValueOf(name, vars).value)
  {
    if vars[0].name == name {
      assert vars[0] == Variable(name, ValueOf(name, vars).value);
    } else {
      ValueOfName(name, vars[1..]);
      var i :| 0 <= i < |vars[1..]| && vars[1..][i] == Variable(name, ValueOf(name, vars).value);
      assert vars[i + 1] == vars[1..][i];
    }
  }

  lemma NoSuchName(name: string, k: nat, vars: seq<Variable>)
    requires NamesStayInside(vars) && k < |name| && Separator(name[k])
    ensures ValueOf(name, vars).None?
  {
    if ValueOf(name, vars).Some? {
      ValueOfName(name, vars);
    }
  }

  /** A separator stands: what is before it and what is after it are filled in apart. */
  lemma {:induction false} SeparatorStands(w: string, c: char, tail: string, vars: seq<Variable>)
    requires NamesStayInside(vars) && Separator(c)
    ensures Substitute(w + [c] + tail, vars) == Substitute(w, vars) + ([c] + Substitute(tail, vars))
    decreases |w|
  {
    if w == [] {
      assert w + [c] + tail == [c] + tail && ([c] + tail)[1..] == tail;
      SubstituteChar([c] + tail, vars);
    } else {
      var head, n := Head(w, vars).0, Head(w, vars).1;
      HeadBeforeSeparator(w, c, tail, vars);
      SeparatorStands(w[n..], c, tail, vars);
      DropFront(w, n, [c], tail);
      Associates(head, Substitute(w[n..], vars), [c] + Substitute(tail, vars));
    }
  }

  lemma DropFront(a: string, n: nat, b: string, c: string)
    requires n <= |a|
    ensures (a + b + c)[n..] == a[n..] + b + c
  {
  }

  /** What a text starts with is the same when a separator follows. */
  lemma HeadBeforeSeparator(w: string, c: char, tail: string, vars: seq<Variable>)
    requires NamesStayInside(vars) && Separator(c) && w != []
    ensures w + [c] + tail != [] && Head(w + [c] + tail, vars) == Head(w, vars)
  {
    if Doubled(w, '{') {
      DropFront(w, 2, [c], tail);
      CloseBefore(w[2..], c, tail);
      var s, end := w + [c] + tail, CloseAt(w[2..]);
      if end + 4 <= |w| {
        SameMiddle(w, [c] + tail, 2, end + 2);
        assert s == w + ([c] + tail);
      } else {
        NoHeadOver(s, c, |w|, vars);
      }
    }
  }

  lemma SameMiddle(a: string, b: string, i: nat, j: nat)
    requires i <= j <= |a|
    ensures (a + b)[i..j] == a[i..j]
  {
  }

  /** Nothing is filled in over a separator. */
  lemma NoHeadOver(s: string, c: char, k: nat, vars: seq<Variable>)
    requires NamesStayInside(vars) && Separator(c) && Doubled(s, '{') && 2 <= k < |s| && s[k] == c
    requires CloseAt(s[2..]) > k - 2
    ensures Head(s, vars) == ([s[0]], 1)
  {
    var end := CloseAt(s[2..]);
    if end + 4 <= |s| {
      assert s[2..end + 2][k - 2] == c;
      NoSuchName(s[2..end + 2], k - 2, vars);
    }
  }

  /** A segment as shown is filled in as it was. */
  lemma SegmentSubstitutes(word: string, vars: seq<Variable>)
    requires Distinct(vars) && NamesStayInside(vars) && Settled(vars)
    ensures Substitute(Shown(Segment(word, vars)), vars) == Substitute(word, vars)
  {
    match Known(word, vars)
    case None =>
    case Some(name) =>
      var v := Variable(name, word);
      var k :| 0 <= k < |vars| && vars[k] == v;
      PlaceholderAlone(v, vars);
  }

  lemma BracedSubstitutes(name: string, value: string, tail: string, vars: seq<Variable>)
    requires '}' !in name && ValueOf(name, vars) == Some(value)
    ensures Substitute(Braced(name) + tail, vars) == value + Substitute(tail, vars)
  {
    PlaceholderSubstitutes(name, value, tail, vars);
  }

  lemma RenderCut(word: string, c: char, more: seq<Piece>, vars: seq<Variable>)
    ensures Render(Cut(word, c, more, vars)) == Shown(Segment(word, vars)) + [c] + Render(more)
  {
    var p := Segment(word, vars);
    assert Cut(word, c, more, vars) == [p] + ([Text([c])] + more);
    RenderCons(p, [Text([c])] + more);
    RenderCons(Text([c]), more);
    Associates(Shown(p), [c], Render(more));
  }

  lemma RenderOne(p: Piece)
    ensures Render([p]) == Shown(p)
  {
    RenderSnoc([], p);
    assert [] + [p] == [p];
  }

  /** The path and query, templated, are filled in as they were. */
  lemma {:induction false} SegmentsSubstitute(rest: string, word: string, vars: seq<Variable>)
    requires Distinct(vars) && NamesStayInside(vars) && Settled(vars)
    ensures Substitute(Render(Segments(rest, word, vars)), vars) == Substitute(word + rest, vars)
    decreases |rest|
  {
    if rest == [] {
      SegmentSubstitutes(word, vars);
      RenderOne(Segment(word, vars));
      assert word + rest == word;
    } else if Separator(rest[0]) {
      SegmentsSubstitute(rest[1..], [], vars);
      assert [] + rest[1..] == rest[1..];
      CutSubstitutes(word, rest[0], rest[1..], Segments(rest[1..], [], vars), vars);
      Shift(word, rest);
    } else {
      SegmentsSubstitute(rest[1..], word + [rest[0]], vars);
      Shift(word, rest);
    }
  }

  lemma CutSubstitutes(word: string, c: char, rest: string, more: seq<Piece>, vars: seq<Variable>)
    requires Distinct(vars) && NamesStayInside(vars) && Settled(vars) && Separator(c)
    requires Substitute(Render(more), vars) == Substitute(rest, vars)
    ensures Substitute(Render(Cut(word, c, more, vars)), vars) == Substitute(word + [c] + rest, vars)
  {
    RenderCut(word, c, more, vars);
    SeparatorStands(Shown(Segment(word, vars)), c, Render(more), vars);
    SegmentSubstitutes(word, vars);
    SeparatorStands(word, c, rest, vars);
  }

  lemma {:induction false} TrimmedIsSettled(value: string, vars: seq<Variable>)
    requires NamesStayInside(vars) && Substitute(value, vars) == value
    ensures Substitute(TrimSlashes(value), vars) == TrimSlashes(value)
    decreases |value|
  {
    if EndsInSlash(value) {
      var front := value[..|value| - 1];
      assert value == front + ['/'] + [];
      SeparatorStands(front, '/', [], vars);
      assert Substitute(front, vars) + (['/'] + []) == front + ['/'];
      assert (Substitute(front, vars) + ['/'])[..|value| - 1] == (front + ['/'])[..|value| - 1];
      TrimmedIsSettled(front, vars);
    }
  }

  /** What starts with a separator is filled in apart from what is before it. */
  lemma BeforeSeparator(w: string, c: char, tail: string, vars: seq<Variable>)
    requires NamesStayInside(vars) && Separator(c)
    ensures Substitute(w + ([c] + tail), vars) == Substitute(w, vars) + Substitute([c] + tail, vars)
  {
    Associates(w, [c], tail);
    SeparatorStands(w, c, tail, vars);
    CharThen(c, tail);
    SubstituteChar([c] + tail, vars);
  }

  lemma CharThen(c: char, tail: string)
    ensures ([c] + tail)[0] == c && ([c] + tail)[1..] == tail
  {
  }

  lemma FirstThen(s: string)
    requires s != []
    ensures s == [s[0]] + s[1..]
  {
  }

  /** A URL under a base is filled in after the base. */
  lemma UnderBaseSubstitutes(url: string, base: string, vars: seq<Variable>)
    requires NamesStayInside(vars) && IsUnder(url, base) && Substitute(base, vars) == base
    ensures Substitute(url, vars) == base + Substitute(url[|base|..], vars)
  {
    var rest := url[|base|..];
    SplitBase(url, base);
    if rest == [] {
      assert url == base && base + [] == base;
    } else {
      FirstThen(rest);
      BeforeSeparator(base, rest[0], rest[1..], vars);
    }
  }

  lemma SplitBase(url: string, base: string)
    requires base <= url
    ensures url == base + url[|base|..]
  {
  }

  /** For every URL, those with placeholders of their own included: filled in, the templated URL is what the URL itself
      is filled in, exactly when the variable it starts with, if it starts with one, has no slash at its end. */
  lemma FillingInIsKept(url: string, vars: seq<Variable>)
    requires Distinct(vars) && NamesStayInside(vars) && Settled(vars)
    ensures Substitute(Render(Templated(url, vars)), vars) == Substitute(url, vars)
            <==> (Base(url, vars).Some? ==> !EndsInSlash(vars[Base(url, vars).value].value))
  {
    match Base(url, vars)
    case None =>
      SegmentsSubstitute(url, [], vars);
      assert [] + url == url;
    case Some(i) =>
      FilledInWithBase(url, vars, i);
      var value := vars[i].value;
      SameBefore(value, TrimSlashes(value), Substitute(url[|TrimSlashes(value)|..], vars));
  }

  lemma FilledInWithBase(url: string, vars: seq<Variable>, i: nat)
    requires Distinct(vars) && NamesStayInside(vars) && Settled(vars) && Base(url, vars) == Some(i)
    ensures var value := vars[i].value;
            var rest := Substitute(url[|TrimSlashes(value)|..], vars);
            && Substitute(Render(Templated(url, vars)), vars) == value + rest
            && Substitute(url, vars) == TrimSlashes(value) + rest
  {
    var v := vars[i];
    var rest := url[|TrimSlashes(v.value)|..];
    RenderCons(Placeholder(v.name), Segments(rest, [], vars));
    ValueOfMember(v, vars);
    BracedSubstitutes(v.name, v.value, Render(Segments(rest, [], vars)), vars);
    SegmentsSubstitute(rest, [], vars);
    assert [] + rest == rest;
    TrimmedIsSettled(v.value, vars);
    UnderBaseSubstitutes(url, TrimSlashes(v.value), vars);
  }

  /** The URL itself comes back exactly when it has no placeholder to fill in. */
  lemma ComesBackUnlessItHasPlaceholders(url: string, vars: seq<Variable>)
    requires Distinct(vars) && NamesStayInside(vars) && Settled(vars)
    requires Base(url, vars).Some? ==> !EndsInSlash(vars[Base(url, vars).value].value)
    ensures Substitute(Render(Templated(url, vars)), vars) == url <==> Substitute(url, vars) == url
  {
    FillingInIsKept(url, vars);
  }

  /** It does not for a URL that is a placeholder, as `{{x}}` where `x` is `secret`. */
  lemma OwnPlaceholderIsFilledIn(v: Variable)
    requires NamesStayInside([v]) && NoOpen(v.value) && !IsAddress(v.value)
    ensures var url, vars := Braced(v.name), [v];
            Base(url, vars).None? && Substitute(Render(Templated(url, vars)), vars) == v.value != url
  {
    NoOpenIsSettled(v.value, [v]);
    FillingInIsKept(Braced(v.name), [v]);
    PlaceholderAlone(v, [v]);
    assert OpenAt(Braced(v.name), 0);
  }

  lemma SecretIsFilledIn()
    ensures var x := Variable("x", "secret");
            Braced("x") == "{{x}}" && NamesStayInside([x]) && NoOpen(x.value) && !IsAddress(x.value)
  {
    var s := "secret";
    assert forall i: nat | i < |s| :: s[i] != '{';
  }

  lemma PlaceholderAlone(v: Variable, vars: seq<Variable>)
    requires v in vars && Distinct(vars) && '}' !in v.name
    ensures Substitute(Braced(v.name), vars) == v.value
  {
    ValueOfMember(v, vars);
    BracedSubstitutes(v.name, v.value, [], vars);
    assert Braced(v.name) + [] == Braced(v.name) && v.value + [] == v.value;
  }

  /** A value has to be settled: a URL that is one word, and the value of a variable, keeps its meaning exactly when
      that value holds no placeholder. */
  lemma ValuesHaveToBeSettled(word: string, vars: seq<Variable>)
    requires Distinct(vars) && NamesStayInside(vars) && Base(word, vars).None? && Known(word, vars).Some?
    requires forall k | 0 <= k < |word| :: !Separator(word[k])
    ensures Substitute(Render(Templated(word, vars)), vars) == Substitute(word, vars)
            <==> Substitute(word, vars) == word
  {
    var name := Known(word, vars).value;
    OneWord(word, [], vars);
    assert [] + word == word;
    RenderOne(Placeholder(name));
    var v := Variable(name, word);
    var k :| 0 <= k < |vars| && vars[k] == v;
    PlaceholderAlone(v, vars);
  }

  lemma {:induction false} OneWord(rest: string, word: string, vars: seq<Variable>)
    requires forall k | 0 <= k < |rest| :: !Separator(rest[k])
    ensures Segments(rest, word, vars) == [Segment(word + rest, vars)]
    decreases |rest|
  {
    if rest == [] {
      assert word + rest == word;
    } else {
      OneWord(rest[1..], word + [rest[0]], vars);
      Shift(word, rest);
    }
  }

  /** What is reported as used: each placeholder once. */
  lemma {:induction false} UsedAreThePlaceholders(pieces: seq<Piece>)
    ensures forall name :: name in Used(pieces) <==> Placeholder(name) in pieces
    ensures forall i, j | 0 <= i < j < |Used(pieces)| :: Used(pieces)[i] != Used(pieces)[j]
  {
    if pieces != [] {
      var init := pieces[..|pieces| - 1];
      assert pieces == init + [pieces[|pieces| - 1]];
      UsedAreThePlaceholders(init);
    }
  }
}

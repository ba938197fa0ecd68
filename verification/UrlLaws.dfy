/** Which variables an environment has and where they go in a URL, said of the pairs, the values and the text. */
module UrlLaws {
  import opened Wrappers
  import opened UrlTemplate

  // ---- The variables ----

  /** After `i` the name has no value but empty ones. */
  ghost predicate OnlyEmpty(pairs: seq<Variable>, i: int, name: string) {
    forall j | 0 <= j < |pairs| && i < j && pairs[j].name == name :: pairs[j].value == ""
  }

  /** What a name holds: the last of its values that is not empty. */
  lemma {:induction false} LastValueIs(pairs: seq<Variable>, name: string, value: string)
    ensures LastValue(pairs, name) == Some(value) <==>
              && value != ""
              && exists i :: 0 <= i < |pairs| && pairs[i] == Variable(name, value) && OnlyEmpty(pairs, i, name)
  {
    if pairs != [] {
      var front, n := pairs[..|pairs| - 1], |pairs| - 1;
      LastValueIs(front, name, value);
      assert pairs[n] == pairs[|pairs| - 1];
      forall i | 0 <= i < n
        ensures OnlyEmpty(pairs, i, name) <==>
                  OnlyEmpty(front, i, name) && (pairs[n].name == name ==> pairs[n].value == "")
      {
        assert forall j | 0 <= j < n :: pairs[j] == front[j];
      }
    }
  }

  // ---- What the URL starts with ----

  /** `base` is `value` without the slashes at its end. */
  ghost predicate IsTrimmed(value: string, base: string) {
    && base <= value && (forall k | |base| <= k < |value| :: value[k] == '/')
    && (base == [] || base[|base| - 1] != '/')
  }

  lemma {:induction false} TrimmedIs(value: string, base: string)
    ensures IsTrimmed(value, base) <==> base == TrimSlashes(value)
  {
    if EndsInSlash(value) {
      var front := value[..|value| - 1];
      TrimmedIs(front, base);
      assert IsTrimmed(value, base) ==> base != value && base <= front;
      assert IsTrimmed(front, base) ==> IsTrimmed(value, base);
    } else {
      assert IsTrimmed(value, base) ==> !(|base| < |value|);
    }
  }

  /** An address that the URL goes on from, `base` without its slashes. */
  ghost predicate StartsAt(url: string, value: string, base: string) {
    && ("http://" <= value || "https://" <= value) && IsTrimmed(value, base)
    && base <= url && (url == base || url[|base|] == '/' || url[|base|] == '?' || url[|base|] == '#')
  }

  lemma StartIs(url: string, value: string, base: string)
    ensures StartsAt(url, value, base) <==> IsBase(url, value) && base == TrimSlashes(value)
  {
    TrimmedIs(value, base);
  }

  /** The URL starts with the placeholder of the variable with the longest such base, the last among equals. */
  lemma {:induction false} BaseIsReplaced(url: string, vars: seq<Variable>, i: nat, base: string)
    requires i < |vars| && StartsAt(url, vars[i].value, base)
    requires forall k, b | 0 <= k < |vars| && StartsAt(url, vars[k].value, b) ::
               |b| < |base| || (|b| == |base| && k <= i)
    ensures Templated(url, vars) == [Placeholder(vars[i].name)] + Segments(url[|base|..], [], vars)
  {
    StartIs(url, vars[i].value, base);
    BaseIsLongest(url, vars, i);
    var r := Base(url, vars).value;
    StartIs(url, vars[r].value, TrimSlashes(vars[r].value));
    assert r == i;
  }

  /** And with its own text when there is none. */
  lemma {:induction false} NoBaseIsReplaced(url: string, vars: seq<Variable>)
    requires forall k, b | 0 <= k < |vars| :: !StartsAt(url, vars[k].value, b)
    ensures Templated(url, vars) == Segments(url, [], vars)
  {
    forall k | 0 <= k < |vars| ensures !IsBase(url, vars[k].value) {
      StartIs(url, vars[k].value, TrimSlashes(vars[k].value));
    }
  }

  // ---- The segments ----

  predicate Divides(c: char) {
    c == '/' || c == '?' || c == '&' || c == '=' || c == '#'
  }

  predicate IsWord(s: string) {
    forall i | 0 <= i < |s| :: !Divides(s[i])
  }

  /** The first variable that holds exactly `word` takes its place, if that has six characters. */
  ghost predicate IsPlaced(p: Piece, word: string, vars: seq<Variable>) {
    if |word| >= 6 && exists i :: 0 <= i < |vars| && vars[i].value == word then
      exists i :: 0 <= i < |vars| && vars[i].value == word && (forall j | 0 <= j < i :: vars[j].value != word)
                  && p == Placeholder(vars[i].name)
    else p == Text(word)
  }

  lemma {:induction false} KnownIs(word: string, vars: seq<Variable>)
    ensures IsPlaced(Segment(word, vars), word, vars)
  {
    if vars != [] && !(|vars[0].value| >= 6 && vars[0].value == word) {
      var rest := vars[1..];
      KnownIs(word, rest);
      assert forall i | 0 < i < |vars| :: vars[i] == rest[i - 1];
      if |word| >= 6 && exists i :: 0 <= i < |rest| && rest[i].value == word {
        var i :| 0 <= i < |rest| && rest[i].value == word && (forall j | 0 <= j < i :: rest[j].value != word)
                 && Segment(word, rest) == Placeholder(rest[i].name);
        assert vars[i + 1].value == word;
      }
    }
  }

  lemma {:induction false} WordIsGathered(start: string, word: string, rest: string, vars: seq<Variable>)
    requires IsWord(word)
    ensures Segments(word + rest, start, vars) == Segments(rest, start + word, vars)
    decreases |word|
  {
    if word == [] {
      assert word + rest == rest && start + word == start;
    } else {
      assert (word + rest)[1..] == word[1..] + rest;
      WordIsGathered(start + [word[0]], word[1..], rest, vars);
      assert start + [word[0]] + word[1..] == start + word;
    }
  }

  lemma NothingBefore(word: string)
    ensures [] + word == word && word + [] == word
  {
  }

  /** A word up to a divider is placed, the divider stays, and the rest follows. */
  lemma WordAndDivider(word: string, c: char, rest: string, vars: seq<Variable>)
    requires IsWord(word) && Divides(c)
    ensures exists p :: IsPlaced(p, word, vars)
                        && Segments(word + ([c] + rest), [], vars) == [p, Text([c])] + Segments(rest, [], vars)
  {
    KnownIs(word, vars);
    WordIsGathered([], word, [c] + rest, vars);
    NothingBefore(word);
    assert ([c] + rest)[0] == c && ([c] + rest)[1..] == rest;
    assert Segments([c] + rest, word, vars) == Cut(word, c, Segments(rest, [], vars), vars);
  }

  /** And so is a last word. */
  lemma LastWord(word: string, vars: seq<Variable>)
    requires IsWord(word)
    ensures exists p :: IsPlaced(p, word, vars) && Segments(word, [], vars) == [p]
  {
    KnownIs(word, vars);
    WordIsGathered([], word, [], vars);
    NothingBefore(word);
  }

  /** How a piece is written. */
  lemma PieceIsWritten(name: string, text: string, pieces: seq<Piece>)
    ensures Render([Placeholder(name)] + pieces) == "{{" + name + "}}" + Render(pieces)
    ensures Render([Text(text)] + pieces) == text + Render(pieces)
    ensures Render([]) == []
  {
    RenderCons(Placeholder(name), pieces);
    RenderCons(Text(text), pieces);
  }

  // ---- Filling in ----

  /** A known name is replaced by its value. */
  lemma KnownNameIsFilledIn(name: string, value: string, tail: string, vars: seq<Variable>)
    requires '{' !in name && '}' !in name && ValueOf(name, vars) == Some(value)
    ensures Substitute("{{" + name + "}}" + tail, vars) == value + Substitute(tail, vars)
  {
    PlaceholderSubstitutes(name, value, tail, vars);
  }

  lemma PlainIsNotOpen(name: string)
    requires '{' !in name
    ensures NoOpen(['{'] + name + ['}', '}'])
  {
    var s := ['{'] + name + ['}', '}'];
    forall i: nat | i < |s| ensures !OpenAt(s, i) {
      assert 0 < i + 1 <= |name| ==> s[i + 1] == name[i];
    }
  }

  /** An unknown one stays. */
  lemma UnknownNameStays(name: string, tail: string, vars: seq<Variable>)
    requires '{' !in name && '}' !in name && ValueOf(name, vars) == None
    ensures Substitute("{{" + name + "}}" + tail, vars) == "{{" + name + "}}" + Substitute(tail, vars)
  {
    var s, rest := "{{" + name + "}}" + tail, ['{'] + name + ['}', '}'];
    assert s[2..] == name + "}}" + tail;
    CloseAfterName(name, tail);
    assert s[2..|name| + 2] == name;
    assert Head(s, vars) == (['{'], 1);
    assert s[1..] == rest + tail;
    PlainIsNotOpen(name);
    TextSubstitutes(rest, tail, vars);
    assert ['{'] + (rest + Substitute(tail, vars)) == "{{" + name + "}}" + Substitute(tail, vars);
  }

  // ---- The variables used ----

  /** The variables used are told in the order of their first placeholders. */
  lemma {:induction false} UsedInOrder(pieces: seq<Piece>, a: nat, b: nat)
    requires a < b < |Used(pieces)|
    ensures exists i :: 0 <= i < |pieces| && pieces[i] == Placeholder(Used(pieces)[a])
                        && forall j | 0 <= j <= i :: pieces[j] != Placeholder(Used(pieces)[b])
  {
    var front, last := pieces[..|pieces| - 1], pieces[|pieces| - 1];
    if b < |Used(front)| {
      UsedInOrder(front, a, b);
      var i :| 0 <= i < |front| && front[i] == Placeholder(Used(front)[a])
               && forall j | 0 <= j <= i :: front[j] != Placeholder(Used(front)[b]);
      assert pieces[i] == front[i] && forall j | 0 <= j <= i :: pieces[j] == front[j];
    } else {
      var name := Used(front)[a];
      IsUsed(front, name);
      var i :| 0 <= i < |front| && front[i] == Placeholder(name);
      forall j | 0 <= j <= i ensures pieces[j] != Placeholder(last.name) {
        assert pieces[j] == front[j];
        if front[j].Placeholder? {
          HasUse(front, j);
        }
      }
      assert pieces[i] == front[i];
    }
  }

  lemma {:induction false} IsUsed(pieces: seq<Piece>, name: string)
    requires name in Used(pieces)
    ensures exists i :: 0 <= i < |pieces| && pieces[i] == Placeholder(name)
  {
    var front := pieces[..|pieces| - 1];
    if name in Used(front) {
      IsUsed(front, name);
      var i :| 0 <= i < |front| && front[i] == Placeholder(name);
      assert pieces[i] == front[i];
    } else {
      assert pieces[|pieces| - 1] == Placeholder(name);
    }
  }

  lemma {:induction false} HasUse(pieces: seq<Piece>, i: nat)
    requires i < |pieces| && pieces[i].Placeholder?
    ensures pieces[i].name in Used(pieces)
  {
    if i < |pieces| - 1 {
      HasUse(pieces[..|pieces| - 1], i);
    }
  }
}

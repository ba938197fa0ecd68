/** The block between markers in a user's file: put in place, appended, or refused. */
module MarkerMerge {
  import opened Wrappers

  const BEGIN: string := "<!-- bifurc:begin -->"
  const END: string := "<!-- bifurc:end -->"

  // ---- Searching ----

  predicate OccursAt(s: string, part: string, i: nat) {
    i <= |s| && part <= s[i..]
  }

  ghost predicate Occurs(s: string, part: string) {
    exists i: nat :: OccursAt(s, part, i)
  }

  /** The first place `part` occurs. */
  function Find(s: string, part: string): (r: Option<nat>)
    requires part != []
    ensures r.Some? ==> OccursAt(s, part, r.value) && forall j: nat | j < r.value :: !OccursAt(s, part, j)
    ensures r.None? ==> !Occurs(s, part)
  {
    FindFrom(s, part, 0)
  }

  function FindFrom(s: string, part: string, i: nat): (r: Option<nat>)
    requires part != [] && i <= |s| && forall j: nat | j < i :: !OccursAt(s, part, j)
    ensures r.Some? ==> OccursAt(s, part, r.value) && forall j: nat | j < r.value :: !OccursAt(s, part, j)
    ensures r.None? ==> !Occurs(s, part)
    decreases |s| - i
  {
    if OccursAt(s, part, i) then Some(i)
    else if i == |s| then None
    else FindFrom(s, part, i + 1)
  }

  lemma FindIs(s: string, part: string, i: nat)
    requires part != [] && OccursAt(s, part, i) && forall j: nat | j < i :: !OccursAt(s, part, j)
    ensures Find(s, part) == Some(i)
  {
    assert Occurs(s, part);
  }

  // ---- The merge ----

  function Eol(file: string): (eol: string)
    ensures eol == "\n" || eol == "\r\n"
  {
    if Find(file, "\r\n").Some? then "\r\n" else "\n"
  }

  /** Each newline as `eol`. */
  function WithEol(s: string, eol: string): string {
    if s == [] then [] else (if s[0] == '\n' then eol else [s[0]]) + WithEol(s[1..], eol)
  }

  function Block(body: string, eol: string): string {
    WithEol(BEGIN + "\n" + body + "\n" + END, eol)
  }

  /** What stands between the text of a file and a block appended to it. */
  function Gap(file: string, eol: string): string {
    if file == [] then [] else (if file[|file| - 1] == '\n' then [] else eol) + eol
  }

  /** `file` with the block in place of the one between the markers, or after everything when there is none; refused
      when a marker lacks its pair or the two are reversed. */
  function Merge(file: string, body: string): Option<string> {
    var eol, begin, end := Eol(file), Find(file, BEGIN), Find(file, END);
    if begin.Some? && end.Some? && begin.value < end.value then
      Some(file[..begin.value] + Block(body, eol) + file[end.value + |END|..])
    else if begin.None? && end.None? then Some(file + Gap(file, eol) + Block(body, eol) + eol)
    else None
  }

  // ---- What the markers are made of ----

  predicate Newline(c: char) {
    c == '\n' || c == '\r'
  }

  /** A marker: it starts with `<`, and holds no other and no newline. */
  predicate Marker(m: string) {
    m != [] && m[0] == '<' && forall i | 0 < i < |m| :: m[i] != '<' && !Newline(m[i])
  }

  lemma MarkerShape()
    ensures Marker(BEGIN) && Marker(END) && |BEGIN| == 21 && |END| == 19 && BEGIN[12] != END[12]
  {
  }

  /** One character that differs rules an occurrence out. */
  lemma RuledOut(s: string, part: string, i: nat, k: nat)
    requires k < |part| && i + k < |s| && s[i + k] != part[k]
    ensures !OccursAt(s, part, i)
  {
    assert s[i..][k] == s[i + k];
  }

  /** An occurrence that ends within a prefix occurs in the prefix; in both directions. */
  lemma OccursInPrefix(s: string, t: string, part: string, i: nat)
    requires i + |part| <= |s|
    ensures OccursAt(s + t, part, i) <==> OccursAt(s, part, i)
  {
    assert (s + t)[i..] == s[i..] + t;
    assert part <= s[i..] + t <==> part <= s[i..] by {
      assert (s[i..] + t)[..|part|] == s[i..][..|part|];
    }
  }

  lemma OccursInSuffix(s: string, t: string, part: string, i: nat)
    requires |s| <= i
    ensures OccursAt(s + t, part, i) <==> OccursAt(t, part, i - |s|)
  {
    if i <= |s + t| {
      assert (s + t)[i..] == t[i - |s|..];
    }
  }

  // ---- The block ----

  lemma {:induction false} WithEolConcat(a: string, b: string, eol: string)
    ensures WithEol(a + b, eol) == WithEol(a, eol) + WithEol(b, eol)
  {
    if a == [] {
      assert a + b == b;
    } else {
      assert (a + b)[1..] == a[1..] + b;
      WithEolConcat(a[1..], b, eol);
    }
  }

  lemma {:induction false} WithEolSame(s: string, eol: string)
    requires eol == "\n" || '\n' !in s
    ensures WithEol(s, eol) == s
  {
    if s == [] {
    } else {
      WithEolSame(s[1..], eol);
    }
  }

  lemma MarkerHasNoNewline(m: string)
    requires Marker(m)
    ensures '\n' !in m && '\r' !in m
  {
  }

  lemma BlockIs(body: string, eol: string)
    requires eol == "\n" || eol == "\r\n"
    ensures Block(body, eol) == BEGIN + eol + WithEol(body, eol) + eol + END
  {
    MarkerShape();
    MarkerHasNoNewline(BEGIN);
    MarkerHasNoNewline(END);
    WithEolConcat(BEGIN + "\n" + body + "\n", END, eol);
    WithEolConcat(BEGIN + "\n" + body, "\n", eol);
    WithEolConcat(BEGIN + "\n", body, eol);
    WithEolConcat(BEGIN, "\n", eol);
    WithEolSame(BEGIN, eol);
    WithEolSame(END, eol);
    OneNewline(eol);
  }

  lemma OneNewline(eol: string)
    ensures WithEol("\n", eol) == eol
  {
    assert "\n"[1..] == [];
  }

  /** A text that starts with `part` still does when its newlines are changed back. */
  lemma {:induction false} PrefixWithEol(part: string, s: string, eol: string)
    requires eol == "\n" || eol == "\r\n"
    requires forall i | 0 <= i < |part| :: !Newline(part[i])
    requires part <= WithEol(s, eol)
    ensures part <= s
  {
    if part != [] {
      var first := if s[0] == '\n' then eol else [s[0]];
      assert WithEol(s, eol) == first + WithEol(s[1..], eol);
      assert part[0] == first[0];
      assert s[0] != '\n';
      assert WithEol(s, eol)[1..] == WithEol(s[1..], eol);
      assert part[1..] <= WithEol(s, eol)[1..];
      PrefixWithEol(part[1..], s[1..], eol);
      assert s == [s[0]] + s[1..] && part == [part[0]] + part[1..];
    }
  }

  lemma NotInTail(s: string, part: string)
    requires s != [] && !Occurs(s, part)
    ensures !Occurs(s[1..], part)
  {
    forall j: nat ensures !OccursAt(s[1..], part, j) {
      if j <= |s[1..]| {
        assert s[1..][j..] == s[j + 1..];
        assert !OccursAt(s, part, j + 1);
      }
    }
  }

  /** A text without a marker has none with its newlines changed. */
  lemma {:induction false} NoMarkerWithEol(s: string, m: string, eol: string, i: nat)
    requires (eol == "\n" || eol == "\r\n") && Marker(m) && !Occurs(s, m)
    ensures !OccursAt(WithEol(s, eol), m, i)
    decreases |s|
  {
    if s == [] {
    } else {
      var first := if s[0] == '\n' then eol else [s[0]];
      var rest := WithEol(s[1..], eol);
      assert WithEol(s, eol) == first + rest;
      if i >= |first| {
        OccursInSuffix(first, rest, m, i);
        NotInTail(s, m);
        NoMarkerWithEol(s[1..], m, eol, i - |first|);
      } else if s[0] == '\n' {
        assert WithEol(s, eol)[i] == eol[i];
        RuledOut(WithEol(s, eol), m, i, 0);
      } else if s[0] != '<' {
        RuledOut(WithEol(s, eol), m, i, 0);
      } else {
        assert WithEol(s, eol)[0..] == WithEol(s, eol) && s[0..] == s;
        assert !OccursAt(s, m, 0);
        if m <= WithEol(s, eol) {
          PrefixWithEol(m, s, eol);
        }
      }
    }
  }

  /** Before a newline, a marker occurs only where it ends before it. */
  lemma NotAcrossNewline(s: string, c: char, t: string, m: string, i: nat)
    requires Marker(m) && Newline(c) && i <= |s|
    ensures OccursAt(s + [c] + t, m, i) ==> OccursAt(s, m, i)
  {
    var all := s + [c] + t;
    assert all == s + ([c] + t);
    if i + |m| > |s| {
      assert all[|s|] == c;
      RuledOut(all, m, i, |s| - i);
    } else {
      OccursInPrefix(s, [c] + t, m, i);
    }
  }

  /** `END` occurs in the block, whatever follows, only at its end. */
  lemma EndOfBlock(body: string, eol: string, post: string, i: nat)
    requires (eol == "\n" || eol == "\r\n") && !Occurs(body, END)
    requires i < |Block(body, eol)| - |END|
    ensures !OccursAt(Block(body, eol) + post, END, i)
  {
    BlockIs(body, eol);
    MarkerShape();
    forall k: nat ensures !OccursAt(WithEol(body, eol), END, k) {
      NoMarkerWithEol(body, END, eol, k);
    }
    EndOfParts(BEGIN, END, WithEol(body, eol), eol, post, i);
    Regroup(BEGIN, eol, WithEol(body, eol), END, post);
  }

  lemma Regroup(begin: string, eol: string, b: string, end: string, post: string)
    ensures begin + eol + b + eol + end + post == begin + (eol + (b + (eol + (end + post))))
    ensures begin + eol + b + eol + end + post == (begin + eol + b + eol) + (end + post)
    ensures begin <= begin + eol + b + eol + end + post
    ensures end <= (begin + eol + b + eol + end + post)[|begin + eol + b + eol|..]
  {
    var front := begin + eol + b + eol;
    Regrouped3(front, end, post);
    Regrouped3(begin + eol + b, eol, end + post);
    Regrouped3(begin + eol, b, eol + (end + post));
    Regrouped3(begin, eol, b + (eol + (end + post)));
    StartsWith(begin, eol + (b + (eol + (end + post))));
    DropFront(front, end + post);
    StartsWith(end, post);
  }

  lemma Regrouped3(a: string, b: string, c: string)
    ensures a + b + c == a + (b + c)
  {
  }

  lemma StartsWith(a: string, b: string)
    ensures a <= a + b
  {
  }

  lemma DropFront(a: string, b: string)
    ensures (a + b)[|a|..] == b
  {
  }

  lemma EndOfParts(begin: string, end: string, b: string, eol: string, post: string, i: nat)
    requires eol == "\n" || eol == "\r\n"
    requires Marker(begin) && Marker(end) && 12 < |begin| && 12 < |end| && begin[12] != end[12]
    requires i < |begin| + |eol| + |b| + |eol|
    requires forall k: nat :: !OccursAt(b, end, k)
    ensures !OccursAt(begin + (eol + (b + (eol + (end + post)))), end, i)
  {
    var last := eol + (end + post);
    var mid := eol + (b + last);
    if i < |begin| {
      var k := if i == 0 then 12 else 0;
      assert (begin + mid)[i + k] == begin[i + k];
      RuledOut(begin + mid, end, i, k);
    } else {
      OccursInSuffix(begin, mid, end, i);
      EndOfTail(end, b, eol, last, i - |begin|);
    }
  }

  lemma EndOfTail(end: string, b: string, eol: string, last: string, i: nat)
    requires eol == "\n" || eol == "\r\n"
    requires Marker(end) && eol <= last
    requires i < |eol| + |b| + |eol|
    requires forall k: nat :: !OccursAt(b, end, k)
    ensures !OccursAt(eol + (b + last), end, i)
  {
    var all := eol + (b + last);
    if i < |eol| {
      assert all[i] == eol[i];
      RuledOut(all, end, i, 0);
    } else if i < |eol| + |b| {
      OccursInSuffix(eol, b + last, end, i);
      assert b + last == b + [last[0]] + last[1..];
      NotAcrossNewline(b, last[0], last[1..], end, i - |eol|);
    } else {
      assert all[i] == last[i - |eol| - |b|] == eol[i - |eol| - |b|];
      RuledOut(all, end, i, 0);
    }
  }

  // ---- Merging again ----

  /** Neither marker starts in `pre`, even with a `BEGIN` right after it. */
  ghost predicate Unmarked(pre: string) {
    forall j: nat | j < |pre| :: !OccursAt(pre + BEGIN, BEGIN, j) && !OccursAt(pre + BEGIN, END, j)
  }

  /** What is found first in a tail is found there in the whole, if nothing before it starts one. */
  lemma FirstInTail(pre: string, tail: string, part: string, i: nat)
    requires part != [] && OccursAt(tail, part, i) && forall j: nat | j < i :: !OccursAt(tail, part, j)
    requires forall j: nat | j < |pre| :: !OccursAt(pre + tail, part, j)
    ensures Find(pre + tail, part) == Some(|pre| + i)
  {
    OccursInSuffix(pre, tail, part, |pre| + i);
    forall j: nat | j < |pre| + i ensures !OccursAt(pre + tail, part, j) {
      if j >= |pre| {
        OccursInSuffix(pre, tail, part, j);
      }
    }
    FindIs(pre + tail, part, |pre| + i);
  }

  /** What does not start before `begin` does not start before a tail that starts with it. */
  lemma BeforeBegin(pre: string, tail: string, begin: string, m: string)
    requires begin <= tail && |m| <= |begin| && forall j: nat | j < |pre| :: !OccursAt(pre + begin, m, j)
    ensures forall j: nat | j < |pre| :: !OccursAt(pre + tail, m, j)
  {
    var rest := tail[|begin|..];
    assert pre + tail == (pre + begin) + rest;
    forall j: nat | j < |pre| ensures !OccursAt(pre + tail, m, j) {
      OccursInPrefix(pre + begin, rest, m, j);
    }
  }

  lemma Whole(s: string)
    ensures s[0..] == s
  {
  }

  lemma Assoc(a: string, b: string, c: string)
    ensures a + b + c == a + (b + c)
  {
  }

  /** The text starts with a block, whose `END` is at `end`. */
  ghost predicate StartsWithBlock(tail: string, end: nat) {
    && BEGIN <= tail && OccursAt(tail, BEGIN, 0) && OccursAt(tail, END, end)
    && forall j: nat | j < end :: !OccursAt(tail, END, j)
  }

  /** Where the markers are found in a text that starts with a block. */
  lemma MarkersOfBlock(body: string, eol: string, post: string)
    requires (eol == "\n" || eol == "\r\n") && !Occurs(body, END)
    ensures |Block(body, eol)| >= |END| && StartsWithBlock(Block(body, eol) + post, |Block(body, eol)| - |END|)
  {
    BlockIs(body, eol);
    Regroup(BEGIN, eol, WithEol(body, eol), END, post);
    Whole(Block(body, eol) + post);
    forall j: nat | j < |Block(body, eol)| - |END| ensures !OccursAt(Block(body, eol) + post, END, j) {
      EndOfBlock(body, eol, post, j);
    }
  }

  /** Where the markers are found around a block. */
  lemma MarkersFound(pre: string, body: string, eol: string, post: string)
    requires Unmarked(pre) && (eol == "\n" || eol == "\r\n") && !Occurs(body, END)
    ensures var m := pre + Block(body, eol) + post;
            Find(m, BEGIN) == Some(|pre|) && Find(m, END) == Some(|pre| + |Block(body, eol)| - |END|)
  {
    MarkersOfBlock(body, eol, post);
    FoundAround(pre, Block(body, eol), post, |Block(body, eol)| - |END|);
  }

  lemma FoundAround(pre: string, block: string, post: string, end: nat)
    requires Unmarked(pre) && StartsWithBlock(block + post, end)
    ensures var m := pre + block + post; Find(m, BEGIN) == Some(|pre|) && Find(m, END) == Some(|pre| + end)
  {
    MarkerShape();
    FoundAfter(pre, block + post, BEGIN, END, end);
    Assoc(pre, block, post);
  }

  /** The same of any two markers, the first of which is not the shorter. */
  lemma FoundAfter(pre: string, tail: string, begin: string, end: string, at: nat)
    requires 0 < |end| <= |begin| && begin <= tail
    requires forall j: nat | j < |pre| :: !OccursAt(pre + begin, begin, j) && !OccursAt(pre + begin, end, j)
    requires OccursAt(tail, begin, 0) && OccursAt(tail, end, at) && forall j: nat | j < at :: !OccursAt(tail, end, j)
    ensures Find(pre + tail, begin) == Some(|pre|) && Find(pre + tail, end) == Some(|pre| + at)
  {
    BeforeBegin(pre, tail, begin, begin);
    BeforeBegin(pre, tail, begin, end);
    FirstInTail(pre, tail, begin, 0);
    FirstInTail(pre, tail, end, at);
  }

  /** A merged file merges to itself exactly when its line ending is still the one the block was written with. */
  lemma MergedAgain(pre: string, body: string, eol: string, post: string)
    requires Unmarked(pre) && (eol == "\n" || eol == "\r\n") && !Occurs(body, END)
    ensures var m := pre + Block(body, eol) + post;
            Merge(m, body) == Some(pre + Block(body, Eol(m)) + post)
            && (Merge(m, body) == Some(m) <==> Eol(m) == eol)
  {
    MarkersFound(pre, body, eol, post);
    var block := Block(body, eol);
    var m := pre + block + post;
    assert m[..|pre|] == pre;
    assert m[|pre| + |block|..] == post;
    BlockIs(body, eol);
    BlockIs(body, Eol(m));
    if Eol(m) != eol {
      WithEolLength(body);
      assert |Block(body, "\r\n")| > |Block(body, "\n")|;
    }
  }

  lemma {:induction false} WithEolLength(s: string)
    ensures |WithEol(s, "\r\n")| >= |WithEol(s, "\n")|
  {
    if s != [] {
      WithEolLength(s[1..]);
    }
  }

  /** A file with its markers in order. */
  predicate Marked(file: string) {
    var begin, end := Find(file, BEGIN), Find(file, END);
    begin.Some? && end.Some? && begin.value < end.value
  }

  predicate Bare(file: string) {
    Find(file, BEGIN).None? && Find(file, END).None?
  }

  lemma MarkedPrefix(file: string)
    requires Marked(file)
    ensures Unmarked(file[..Find(file, BEGIN).value])
  {
    MarkerShape();
    var begin, end := Find(file, BEGIN).value, Find(file, END).value;
    var pre, rest := file[..begin], file[begin + |BEGIN|..];
    assert file[begin..][..|BEGIN|] == BEGIN;
    assert file == (pre + BEGIN) + rest;
    forall j: nat | j < |pre| ensures !OccursAt(pre + BEGIN, BEGIN, j) && !OccursAt(pre + BEGIN, END, j) {
      OccursInPrefix(pre + BEGIN, rest, BEGIN, j);
      OccursInPrefix(pre + BEGIN, rest, END, j);
    }
  }

  /** What a block is appended to has no marker either. */
  lemma BarePrefix(file: string, eol: string)
    requires Bare(file) && (eol == "\n" || eol == "\r\n")
    ensures Unmarked(file + Gap(file, eol))
  {
    MarkerShape();
    var gap := Gap(file, eol);
    var pre := file + gap;
    forall m, j: nat | j < |pre| && (m == BEGIN || m == END) ensures !OccursAt(pre + BEGIN, m, j) {
      if j >= |file| {
        assert (pre + BEGIN)[j] == gap[j - |file|];
        RuledOut(pre + BEGIN, m, j, 0);
      } else {
        assert gap == [gap[0]] + gap[1..];
        assert pre + BEGIN == file + [gap[0]] + (gap[1..] + BEGIN);
        NotAcrossNewline(file, gap[0], gap[1..] + BEGIN, m, j);
      }
    }
  }

  // ---- Line endings ----

  predicate CrlfAt(s: string, i: nat) {
    i + 1 < |s| && s[i] == '\r' && s[i + 1] == '\n'
  }

  ghost predicate HasCrlf(s: string) {
    exists i: nat :: CrlfAt(s, i)
  }

  lemma EolIs(s: string)
    ensures Eol(s) == "\r\n" <==> HasCrlf(s)
  {
    forall i: nat ensures OccursAt(s, "\r\n", i) <==> CrlfAt(s, i) {
      if i <= |s| {
        assert |s[i..]| == |s| - i;
        assert CrlfAt(s, i) ==> s[i..][..2] == "\r\n";
        assert "\r\n" <= s[i..] ==> s[i..][0] == "\r\n"[0] && s[i..][1] == "\r\n"[1];
      }
    }
  }

  /** A block written with CRLF has one. */
  lemma BlockHasCrlf(pre: string, body: string, post: string)
    ensures HasCrlf(pre + Block(body, "\r\n") + post)
  {
    BlockIs(body, "\r\n");
    var m := pre + Block(body, "\r\n") + post;
    var i := |pre| + |BEGIN|;
    assert m[i] == '\r' && m[i + 1] == '\n';
    assert CrlfAt(m, i);
  }

  /** A block written with LF, between texts that have no CRLF, has none: the block starts
      and ends with a character that is no newline. */
  lemma NoCrlfAround(pre: string, body: string, post: string)
    requires '\r' !in body && !HasCrlf(pre) && !HasCrlf(post)
    ensures !HasCrlf(pre + Block(body, "\n") + post)
  {
    MarkerShape();
    BlockIs(body, "\n");
    WithEolSame(body, "\n");
    MarkerHasNoNewline(BEGIN);
    MarkerHasNoNewline(END);
    var block := Block(body, "\n");
    assert '\r' !in block && block[0] == '<';
    var m := pre + block + post;
    forall i: nat ensures !CrlfAt(m, i) {
      if i < |pre| {
        assert !CrlfAt(pre, i);
        assert i + 1 < |m| && i + 1 == |pre| ==> m[i + 1] == block[0];
      } else if i < |pre| + |block| {
        assert m[i] == block[i - |pre|];
      } else {
        assert !CrlfAt(post, i - |pre| - |block|);
      }
    }
  }

  /** The one file whose line ending merging changes: no markers, no CRLF, and a CR at its very end. */
  ghost predicate EndsInLoneCr(file: string) {
    Bare(file) && file != [] && file[|file| - 1] == '\r' && !HasCrlf(file)
  }

  /** Replacing a block keeps the line ending. */
  lemma MarkedKeepsEol(file: string, body: string)
    requires Marked(file) && '\r' !in body
    ensures Eol(Merge(file, body).value) == Eol(file)
  {
    var eol := Eol(file);
    var pre, post := file[..Find(file, BEGIN).value], file[Find(file, END).value + |END|..];
    EolIs(file);
    EolIs(Merge(file, body).value);
    if eol == "\r\n" {
      BlockHasCrlf(pre, body, post);
    } else {
      NoCrlfInPart(file, 0, |pre|);
      NoCrlfInPart(file, |file| - |post|, |file|);
      assert file[0..|pre|] == pre && file[|file| - |post|..|file|] == post;
      NoCrlfAround(pre, body, post);
    }
  }

  lemma NoCrlfInPart(s: string, i: nat, j: nat)
    requires !HasCrlf(s) && i <= j <= |s|
    ensures !HasCrlf(s[i..j])
  {
    forall k: nat ensures !CrlfAt(s[i..j], k) {
      assert !CrlfAt(s, i + k);
    }
  }

  /** Appending a block keeps the line ending, but for the lone CR. */
  lemma BareKeepsEol(file: string, body: string)
    requires Bare(file) && '\r' !in body
    ensures Eol(Merge(file, body).value) == Eol(file) <==> !EndsInLoneCr(file)
  {
    var eol := Eol(file);
    var pre := file + Gap(file, eol);
    var m := pre + Block(body, eol) + eol;
    EolIs(file);
    EolIs(m);
    if eol == "\r\n" {
      BlockHasCrlf(pre, body, eol);
    } else if EndsInLoneCr(file) {
      assert CrlfAt(m, |file| - 1);
    } else {
      forall i: nat ensures !CrlfAt(pre, i) {
        assert !CrlfAt(file, i);
      }
      NoCrlfAround(pre, body, eol);
    }
  }

  // ---- The results ----

  /** An `END` with no `BEGIN` before it, in a file that has one. */
  ghost predicate EndsFirst(file: string) {
    Occurs(file, BEGIN)
    && exists i: nat :: OccursAt(file, END, i) && forall j: nat | j <= i :: !OccursAt(file, BEGIN, j)
  }

  /** Refused exactly when one marker is there without the other, or an end comes before every beginning. */
  lemma RefusedWhenUnpaired(file: string, body: string)
    ensures Merge(file, body).None? <==> Occurs(file, BEGIN) != Occurs(file, END) || EndsFirst(file)
  {
    var begin, end := Find(file, BEGIN), Find(file, END);
    assert begin.Some? <==> Occurs(file, BEGIN);
    assert end.Some? <==> Occurs(file, END);
    if begin.Some? && end.Some? {
      NotBoth(file, begin.value);
      assert end.value < begin.value ==> forall j: nat | j <= end.value :: !OccursAt(file, BEGIN, j);
      forall i: nat | begin.value < end.value && OccursAt(file, END, i) ensures begin.value <= i {
        assert !(i < end.value);
      }
    }
  }

  /** No place holds both markers. */
  lemma NotBoth(file: string, i: nat)
    ensures !(OccursAt(file, BEGIN, i) && OccursAt(file, END, i))
  {
    MarkerShape();
    if OccursAt(file, BEGIN, i) {
      assert file[i..][12] == BEGIN[12] == file[i + 12];
      RuledOut(file, END, i, 12);
    }
  }

  /** Merging the same body again changes nothing, for every file that is not refused, exactly when the file does not
      end in a lone CR. */
  lemma MergingTwice(file: string, body: string)
    requires !Occurs(body, BEGIN) && !Occurs(body, END) && '\r' !in body && Merge(file, body).Some?
    ensures Merge(Merge(file, body).value, body) == Merge(file, body) <==> !EndsInLoneCr(file)
  {
    var eol, m := Eol(file), Merge(file, body).value;
    if Marked(file) {
      var pre, post := file[..Find(file, BEGIN).value], file[Find(file, END).value + |END|..];
      MarkedPrefix(file);
      MergedAgain(pre, body, eol, post);
      MarkedKeepsEol(file, body);
    } else {
      BarePrefix(file, eol);
      MergedAgain(file + Gap(file, eol), body, eol, eol);
      BareKeepsEol(file, body);
    }
  }

  /** What stands before and after the block is kept, and the block is the only thing between the markers. */
  lemma AroundTheBlockIsKept(file: string, body: string)
    requires Marked(file) && !Occurs(body, END)
    ensures var m := Merge(file, body).value;
            && Find(m, BEGIN) == Find(file, BEGIN)
            && m[..Find(m, BEGIN).value] == file[..Find(file, BEGIN).value]
            && Find(m, END).Some?
            && m[Find(m, END).value + |END|..] == file[Find(file, END).value + |END|..]
            && m[Find(m, BEGIN).value..Find(m, END).value + |END|] == Block(body, Eol(file))
  {
    var eol := Eol(file);
    var pre, post := file[..Find(file, BEGIN).value], file[Find(file, END).value + |END|..];
    MarkedPrefix(file);
    MarkersFound(pre, body, eol, post);
    BlockIs(body, eol);
  }

  // ---- The merged text, spelled out ----

  /** The lines of a text, with `eol` between them. */
  function Joined(lines: seq<string>, eol: string): string
    requires lines != []
  {
    if |lines| == 1 then lines[0] else lines[0] + eol + Joined(lines[1..], eol)
  }

  lemma {:induction false} JoinedWithEol(lines: seq<string>, eol: string)
    requires lines != [] && forall i | 0 <= i < |lines| :: '\n' !in lines[i]
    ensures WithEol(Joined(lines, "\n"), eol) == Joined(lines, eol)
  {
    WithEolSame(lines[0], eol);
    if |lines| > 1 {
      JoinedWithEol(lines[1..], eol);
      WithEolConcat(lines[0] + "\n", Joined(lines[1..], "\n"), eol);
      WithEolConcat(lines[0], "\n", eol);
      OneNewline(eol);
    }
  }

  /** Every text is its lines joined. */
  lemma {:induction false} LinesOf(s: string) returns (lines: seq<string>)
    ensures lines != [] && (forall i | 0 <= i < |lines| :: '\n' !in lines[i]) && Joined(lines, "\n") == s
  {
    if s == [] {
      lines := [[]];
    } else {
      var rest := LinesOf(s[1..]);
      assert s == [s[0]] + s[1..];
      if s[0] == '\n' {
        lines := [[]] + rest;
        assert lines[1..] == rest;
        assert [] + "\n" == "\n";
      } else {
        lines := [[s[0]] + rest[0]] + rest[1..];
        assert lines[1..] == rest[1..];
        if |rest| > 1 {
          Regrouped([s[0]], rest[0], "\n", Joined(rest[1..], "\n"));
        }
      }
    }
  }

  lemma Regrouped(a: string, b: string, c: string, d: string)
    ensures a + b + c + d == a + (b + c + d)
  {
  }

  /** The block for a body of these lines, in a file with that line ending. */
  function BlockOf(lines: seq<string>, eol: string): string
    requires lines != []
  {
    "<!-- bifurc:begin -->" + eol + Joined(lines, eol) + eol + "<!-- bifurc:end -->"
  }

  lemma BlockIsOfLines(lines: seq<string>, eol: string)
    requires (eol == "\n" || eol == "\r\n") && lines != [] && forall i | 0 <= i < |lines| :: '\n' !in lines[i]
    ensures Block(Joined(lines, "\n"), eol) == BlockOf(lines, eol)
  {
    BlockIs(Joined(lines, "\n"), eol);
    JoinedWithEol(lines, eol);
  }

  /** The line ending of a file: CRLF if it has one. */
  ghost function EndingOf(file: string): string {
    if HasCrlf(file) then "\r\n" else "\n"
  }

  lemma EndingIs(file: string)
    ensures Eol(file) == EndingOf(file)
  {
    EolIs(file);
  }

  /** To a file without markers the block is appended: all of the file comes first, its last line ended, then an empty
      line, unless the file is empty; then the block, and a line ending. */
  lemma AppendedAfterTheFile(file: string, lines: seq<string>)
    requires !Occurs(file, BEGIN) && !Occurs(file, END)
    requires lines != [] && forall i | 0 <= i < |lines| :: '\n' !in lines[i]
    ensures var eol := EndingOf(file);
            var between :=
              if |file| == 0 then "" else if file[|file| - 1] == '\n' then eol else eol + eol;
            Merge(file, Joined(lines, "\n")) == Some(file + between + BlockOf(lines, eol) + eol)
  {
    BlockIsOfLines(lines, Eol(file));
    EndingIs(file);
    assert Bare(file);
    if file != [] && file[|file| - 1] == '\n' {
      assert [] + Eol(file) == Eol(file);
    }
  }

  /** In a file with markers the block takes the place of everything from the first begin marker through the first end
      marker. */
  lemma PutBetweenTheMarkers(file: string, lines: seq<string>, i: nat, j: nat)
    requires OccursAt(file, BEGIN, i) && forall k: nat | k < i :: !OccursAt(file, BEGIN, k)
    requires OccursAt(file, END, j) && forall k: nat | k < j :: !OccursAt(file, END, k)
    requires i < j && lines != [] && forall k | 0 <= k < |lines| :: '\n' !in lines[k]
    ensures j + 19 <= |file|
    ensures Merge(file, Joined(lines, "\n")) == Some(file[..i] + BlockOf(lines, EndingOf(file)) + file[j + 19..])
  {
    MarkerShape();
    FindIs(file, BEGIN, i);
    FindIs(file, END, j);
    MergedBetween(file, Joined(lines, "\n"), i, j);
    EndingIs(file);
    BlockIsOfLines(lines, EndingOf(file));
  }

  lemma MergedBetween(file: string, body: string, i: nat, j: nat)
    requires Find(file, BEGIN) == Some(i) && Find(file, END) == Some(j) && i < j
    ensures j + |END| <= |file| && Merge(file, body) == Some(file[..i] + Block(body, Eol(file)) + file[j + |END|..])
  {
  }
}

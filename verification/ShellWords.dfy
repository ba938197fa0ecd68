/** Words quoted for a POSIX shell, and a shell's words read back: the command line the engine is given. */
module ShellWords {

  // ---- Characters ----

  /** Unicode's White_Space. */
  predicate IsWhitespace(c: char) {
    c == ' ' || '\t' <= c <= '\r' || c == '\U{85}' || c == '\U{A0}' || c == '\U{1680}'
    || '\U{2000}' <= c <= '\U{200A}' || c == '\U{2028}' || c == '\U{2029}' || c == '\U{202F}' || c == '\U{205F}'
    || c == '\U{3000}'
  }

  /** Unicode's control characters. */
  predicate IsControl(c: char) {
    c <= '\U{1F}' || '\U{7F}' <= c <= '\U{9F}'
  }

  /** A control character that has no escape of its own. */
  predicate IsOther(c: char) {
    IsControl(c) && c != '\n' && c != '\r' && c != '\t'
  }

  predicate IsSafe(c: char) {
    '0' <= c <= '9' || 'A' <= c <= 'Z' || 'a' <= c <= 'z' || c == '_' || c == '@' || c == '%' || c == '+' || c == '='
    || c == ':' || c == ',' || c == '.' || c == '/' || c == '-'
  }

  /** A character that a backslash escapes between double quotes. */
  predicate IsEscapable(c: char) {
    c == '"' || c == '\\' || c == '$' || c == '`'
  }

  // ---- Reading words ----

  /** A quoted part from after its opening quote: the word with it, and what follows the closing quote. */
  function InQuotes(s: string, quote: char, ansi: bool, word: string): (r: (string, string))
    ensures |r.1| <= |s|
    decreases |s|
  {
    if s == [] then (word, [])
    else if s[0] == quote then (word, s[1..])
    else if s[0] == '\\' && |s| > 1 && (ansi || (quote == '"' && IsEscapable(s[1]))) then
      InQuotes(s[2..], quote, ansi, word + [if ansi then Unescaped(s[1]) else s[1]])
    else InQuotes(s[1..], quote, ansi, word + [s[0]])
  }

  function Unescaped(c: char): char {
    if c == 'n' then '\n' else if c == 't' then '\t' else if c == 'r' then '\r' else c
  }

  predicate OpensQuote(s: string)
    requires s != []
  {
    s[0] == '\'' || s[0] == '"' || (s[0] == '$' && |s| > 1 && s[1] == '\'')
  }

  /** The words of `s`, after a part `word` of the first one when `open`. */
  function Words(s: string, word: string, open: bool): seq<string>
    decreases |s|
  {
    if s == [] then (if open then [word] else [])
    else if IsWhitespace(s[0]) then (if open then [word] + Words(s[1..], [], false) else Words(s[1..], word, false))
    else if s[0] == '\\' && |s| > 1 && s[1] == '\n' then Words(s[2..], word, open)
    else if s[0] == '\\' && |s| > 1 then Words(s[2..], word + [s[1]], true)
    else if OpensQuote(s) then
      var ansi := s[0] == '$';
      var r := InQuotes(if ansi then s[2..] else s[1..], if ansi then '\'' else s[0], ansi, word);
      Words(r.1, r.0, true)
    else Words(s[1..], word + [s[0]], true)
  }

  /** The tokenizer. It ends, in bounds, on every input, unterminated quotes included. */
  method ReadWords(input: string) returns (words: seq<string>)
    ensures words == Words(input, [], false)
  {
    words := [];
    var word, open, i := "", false, 0;
    while i < |input|
      invariant i <= |input|
      invariant Words(input, [], false) == words + Words(input[i..], word, open)
    {
      var c := input[i];
      ghost var rest, was := input[i..], i;
      i := i + 1;
      assert rest[1..] == input[i..] && (i < |input| ==> rest[2..] == input[i + 1..]);
      if IsWhitespace(c) {
        if open {
          words := words + [word];
          word := "";
          open := false;
        }
      } else if c == '\\' && i < |input| && input[i] == '\n' {
        i := i + 1;
      } else if c == '\\' && i < |input| {
        word := word + [input[i]];
        open, i := true, i + 1;
      } else if (c == '\'' || c == '"' || c == '$') && (c != '$' || (i < |input| && input[i] == '\'')) {
        open := true;
        var ansi := c == '$';
        var quote := if ansi then '\'' else c;
        i := if ansi then i + 1 else i;
        word, i := ReadQuoted(input, i, quote, ansi, word);
      } else {
        word := word + [c];
        open := true;
      }
    }
    if open {
      words := words + [word];
    }
  }

  /** The inner loop, with the step over the closing quote, which an unterminated part lacks. */
  method ReadQuoted(input: string, start: nat, quote: char, ansi: bool, before: string)
      returns (word: string, i: nat)
    requires start <= |input|
    ensures start <= i <= |input| && InQuotes(input[start..], quote, ansi, before) == (word, input[i..])
  {
    word, i := before, start;
    while i < |input| && input[i] != quote
      invariant start <= i <= |input|
      invariant InQuotes(input[start..], quote, ansi, before) == InQuotes(input[i..], quote, ansi, word)
    {
      var escaped := input[i] == '\\' && i + 1 < |input| && (ansi || (quote == '"' && IsEscapable(input[i + 1])));
      ghost var rest := input[i..];
      assert rest[1..] == input[i + 1..] && (escaped ==> rest[2..] == input[i + 2..]);
      if escaped {
        i := i + 1;
      }
      word := word + [if escaped && ansi then Unescaped(input[i]) else input[i]];
      i := i + 1;
    }
    if i < |input| {
      assert input[i..][1..] == input[i + 1..];
      i := i + 1;
    }
  }

  // ---- Writing words ----

  function Hex(n: nat): (c: char)
    requires n < 16
    ensures '0' <= c <= '9' || 'a' <= c <= 'f'
  {
    "0123456789abcdef"[n]
  }

  /** A character of a `$'…'` word. */
  function Escape(c: char): string {
    if c == '\\' then "\\\\"
    else if c == '\'' then "\\'"
    else if c == '\n' then "\\n"
    else if c == '\r' then "\\r"
    else if c == '\t' then "\\t"
    else if IsControl(c) then ['\\', 'x', Hex(c as int / 16), Hex(c as int % 16)]
    else [c]
  }

  function EscapeAll(w: string): string {
    if w == [] then [] else Escape(w[0]) + EscapeAll(w[1..])
  }

  /** `'` as `'\''`. */
  function SingleQuoted(w: string): string {
    if w == [] then [] else (if w[0] == '\'' then "'\\''" else [w[0]]) + SingleQuoted(w[1..])
  }

  /** `value` as one word of a POSIX shell. */
  function Quote(value: string): string {
    if value != [] && forall i | 0 <= i < |value| :: IsSafe(value[i]) then value
    else if forall i | 0 <= i < |value| :: !IsControl(value[i]) then ['\''] + SingleQuoted(value) + ['\'']
    else ['$', '\''] + EscapeAll(value) + ['\'']
  }

  function Joined(tokens: seq<string>): string {
    if tokens == [] then []
    else if |tokens| == 1 then Quote(tokens[0])
    else Quote(tokens[0]) + [' '] + Joined(tokens[1..])
  }

  /** The cURL command the engine reads. */
  function Command(tokens: seq<string>): string {
    "curl" + [' '] + Joined(tokens)
  }

  // ---- Written words, read back ----

  /** A character as it comes back: a control character without an escape of its own as `x` and two digits. */
  function Returned(c: char): string {
    if IsOther(c) then ['x', Hex(c as int / 16), Hex(c as int % 16)] else [c]
  }

  function ReturnedAll(w: string): string {
    if w == [] then [] else Returned(w[0]) + ReturnedAll(w[1..])
  }

  function ReturnedWords(ws: seq<string>): seq<string> {
    if ws == [] then [] else [ReturnedAll(ws[0])] + ReturnedWords(ws[1..])
  }

  lemma {:induction false} PlainReturned(w: string)
    requires forall i | 0 <= i < |w| :: !IsOther(w[i])
    ensures ReturnedAll(w) == w
  {
    if w == [] {
    } else {
      PlainReturned(w[1..]);
    }
  }

  lemma {:induction false} ReturnedIsLonger(w: string)
    ensures |ReturnedAll(w)| >= |w|
    ensures (exists i :: 0 <= i < |w| && IsOther(w[i])) ==> |ReturnedAll(w)| > |w|
  {
    if w == [] {
    } else {
      ReturnedIsLonger(w[1..]);
    }
  }

  lemma {:induction false} SafeReads(w: string, rest: string, word: string, open: bool)
    requires forall i | 0 <= i < |w| :: IsSafe(w[i])
    ensures Words(w + rest, word, open) == Words(rest, word + w, open || w != [])
  {
    if w == [] {
      assert w + rest == rest && word + w == word;
    } else {
      assert (w + rest)[1..] == w[1..] + rest;
      assert word + w == word + [w[0]] + w[1..];
      SafeReads(w[1..], rest, word + [w[0]], true);
    }
  }

  /** The words after a quoted part. */
  function AfterQuotes(s: string, word: string): seq<string> {
    var r := InQuotes(s, '\'', false, word);
    Words(r.1, r.0, true)
  }

  /** A quote within single quotes: they are closed, and opened again after it. */
  lemma ApostropheReads(more: string, word: string)
    ensures AfterQuotes("'\\''" + more, word) == AfterQuotes(more, word + ['\''])
  {
    var s := "'\\''" + more;
    var closed := s[1..];
    var open := closed[2..];
    assert open[1..] == more;
    assert AfterQuotes(s, word) == Words(closed, word, true);
    assert Words(closed, word, true) == Words(open, word + ['\''], true);
    assert Words(open, word + ['\''], true) == AfterQuotes(more, word + ['\'']);
  }

  lemma {:induction false} SingleReads(w: string, rest: string, word: string)
    ensures AfterQuotes(SingleQuoted(w) + ['\''] + rest, word) == Words(rest, word + w, true)
  {
    var s := SingleQuoted(w) + ['\''] + rest;
    if w == [] {
      assert s == ['\''] + rest && word + w == word;
    } else {
      var more := SingleQuoted(w[1..]) + ['\''] + rest;
      assert word + w == word + [w[0]] + w[1..];
      SingleReads(w[1..], rest, word + [w[0]]);
      if w[0] == '\'' {
        assert s == "'\\''" + more;
        ApostropheReads(more, word);
      } else {
        assert s == [w[0]] + more;
      }
    }
  }

  lemma {:induction false} EscapedReads(w: string, rest: string, word: string)
    ensures InQuotes(EscapeAll(w) + ['\''] + rest, '\'', true, word) == (word + ReturnedAll(w), rest)
  {
    if w == [] {
      assert EscapeAll(w) + ['\''] + rest == ['\''] + rest && word + ReturnedAll(w) == word;
    } else {
      var c, more := w[0], EscapeAll(w[1..]) + ['\''] + rest;
      Regroup4(Escape(c), EscapeAll(w[1..]), ['\''], rest);
      OneEscapedReads(c, more, word);
      EscapedReads(w[1..], rest, word + Returned(c));
      Regroup(word, Returned(c), ReturnedAll(w[1..]));
    }
  }

  lemma Regroup4(a: string, b: string, c: string, d: string)
    ensures a + b + c + d == a + (b + c + d)
  {
  }

  lemma OneEscapedReads(c: char, more: string, word: string)
    ensures InQuotes(Escape(c) + more, '\'', true, word) == InQuotes(more, '\'', true, word + Returned(c))
  {
    if IsOther(c) {
      var a, b := Hex(c as int / 16), Hex(c as int % 16);
      assert Escape(c) + more == ['\\', 'x'] + ([a] + ([b] + more));
      BackslashReads('x', [a] + ([b] + more), word);
      CharReads(a, [b] + more, word + ['x']);
      CharReads(b, more, word + ['x'] + [a]);
      assert word + ['x'] + [a] + [b] == word + Returned(c);
    } else if |Escape(c)| == 2 {
      BackslashReads(Escape(c)[1], more, word);
      assert Escape(c) == ['\\', Escape(c)[1]] && Returned(c) == [Unescaped(Escape(c)[1])];
    } else {
      CharReads(c, more, word);
    }
  }

  lemma CharReads(c: char, more: string, word: string)
    requires c != '\'' && c != '\\'
    ensures InQuotes([c] + more, '\'', true, word) == InQuotes(more, '\'', true, word + [c])
  {
    assert ([c] + more)[1..] == more;
  }

  lemma BackslashReads(c: char, more: string, word: string)
    ensures InQuotes(['\\', c] + more, '\'', true, word) == InQuotes(more, '\'', true, word + [Unescaped(c)])
  {
    assert (['\\', c] + more)[2..] == more;
  }

  lemma SingleQuotedReads(w: string, rest: string)
    ensures Words(['\''] + SingleQuoted(w) + ['\''] + rest, [], false) == Words(rest, w, true)
  {
    var s, more := ['\''] + SingleQuoted(w) + ['\''] + rest, SingleQuoted(w) + ['\''] + rest;
    assert s == ['\''] + more && s[1..] == more;
    SingleReads(w, rest, []);
    assert [] + w == w;
  }

  lemma AnsiQuotedReads(w: string, rest: string)
    ensures Words(['$', '\''] + EscapeAll(w) + ['\''] + rest, [], false) == Words(rest, ReturnedAll(w), true)
  {
    var s, more := ['$', '\''] + EscapeAll(w) + ['\''] + rest, EscapeAll(w) + ['\''] + rest;
    assert s == ['$', '\''] + more && s[2..] == more;
    EscapedReads(w, rest, []);
    assert [] + ReturnedAll(w) == ReturnedAll(w);
  }

  /** A written word is read as one word, and comes back as `ReturnedAll` has it. */
  lemma QuoteReads(w: string, rest: string)
    ensures Words(Quote(w) + rest, [], false) == Words(rest, ReturnedAll(w), true)
  {
    if w != [] && forall i | 0 <= i < |w| :: IsSafe(w[i]) {
      SafeReads(w, rest, [], false);
      assert [] + w == w;
      PlainReturned(w);
    } else if forall i | 0 <= i < |w| :: !IsControl(w[i]) {
      PlainReturned(w);
      SingleQuotedReads(w, rest);
    } else {
      AnsiQuotedReads(w, rest);
    }
  }

  lemma {:induction false} JoinedReads(ws: seq<string>)
    ensures Words(Joined(ws), [], false) == ReturnedWords(ws)
  {
    if ws == [] {
    } else if |ws| == 1 {
      QuoteReads(ws[0], []);
      assert Quote(ws[0]) + [] == Quote(ws[0]);
      assert ReturnedWords(ws[1..]) == [];
    } else {
      QuoteSpaceReads(ws[0], Joined(ws[1..]));
      JoinedReads(ws[1..]);
    }
  }

  lemma QuoteSpaceReads(w: string, more: string)
    ensures Words(Quote(w) + [' '] + more, [], false) == [ReturnedAll(w)] + Words(more, [], false)
  {
    Regroup(Quote(w), [' '], more);
    QuoteReads(w, [' '] + more);
    SpaceReads(more, ReturnedAll(w));
  }

  lemma Regroup(a: string, b: string, c: string)
    ensures a + b + c == a + (b + c)
  {
  }

  /** A space ends a word. */
  lemma SpaceReads(more: string, word: string)
    ensures Words([' '] + more, word, true) == [word] + Words(more, [], false)
  {
    assert ([' '] + more)[1..] == more;
  }

  /** Every command reads back as `curl` and its words, each as it comes back. */
  lemma CommandReads(ws: seq<string>)
    ensures Words(Command(ws), [], false) == ["curl"] + ReturnedWords(ws)
  {
    FirstWordReads("curl", Joined(ws));
    JoinedReads(ws);
  }

  lemma FirstWordReads(word: string, more: string)
    requires word != [] && forall i | 0 <= i < |word| :: IsSafe(word[i])
    ensures Words(word + [' '] + more, [], false) == [word] + Words(more, [], false)
  {
    assert word + [' '] + more == word + ([' '] + more);
    SafeReads(word, [' '] + more, [], false);
    assert [] + word == word;
    SpaceReads(more, word);
  }

  predicate Clean(ws: seq<string>) {
    forall i | 0 <= i < |ws| :: forall k | 0 <= k < |ws[i]| :: !IsOther(ws[i][k])
  }

  lemma {:induction false} CleanReturns(ws: seq<string>)
    ensures ReturnedWords(ws) == ws <==> Clean(ws)
  {
    if ws == [] {
    } else {
      CleanReturns(ws[1..]);
      if forall k | 0 <= k < |ws[0]| :: !IsOther(ws[0][k]) {
        PlainReturned(ws[0]);
      } else {
        ReturnedIsLonger(ws[0]);
      }
      assert ws == [ws[0]] + ws[1..];
      CleanTail(ws);
    }
  }

  lemma CleanTail(ws: seq<string>)
    requires ws != []
    ensures Clean(ws) <==> (forall k | 0 <= k < |ws[0]| :: !IsOther(ws[0][k])) && Clean(ws[1..])
  {
    forall i | 0 < i < |ws| ensures ws[i] == ws[1..][i - 1] {
    }
  }

  /** The round trip holds exactly when the words' only control characters are newline, carriage return and tab. */
  lemma RoundTrip(ws: seq<string>)
    ensures Words(Command(ws), [], false) == ["curl"] + ws <==> Clean(ws)
  {
    CommandReads(ws);
    CleanReturns(ws);
    assert forall a: seq<string>, b: seq<string> :: ["curl"] + a == ["curl"] + b ==> a == b by {
      forall a: seq<string>, b: seq<string> | ["curl"] + a == ["curl"] + b ensures a == b {
        assert (["curl"] + a)[1..] == a && (["curl"] + b)[1..] == b;
      }
    }
  }
}

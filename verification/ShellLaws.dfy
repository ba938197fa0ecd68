/** How the tokenizer reads what a shell's words are made of, said of the text itself. */
module ShellLaws {
  import opened ShellWords

  // ---- Outside quotes ----

  /** The code points Unicode calls white space. */
  predicate IsBlank(c: char) {
    var n := c as int;
    9 <= n <= 13 || n == 32 || n == 133 || n == 160 || n == 5760 || 8192 <= n <= 8202 || n == 8232 || n == 8233
    || n == 8239 || n == 8287 || n == 12288
  }

  /** A blank ends a word that was begun, and is nothing before one. */
  lemma BlankEnds(c: char, rest: string, word: string)
    requires IsBlank(c)
    ensures Words([c] + rest, word, true) == [word] + Words(rest, [], false)
    ensures Words([c] + rest, [], false) == Words(rest, [], false)
  {
    assert ([c] + rest)[1..] == rest;
  }

  /** A character that is no blank, quote or backslash stands for itself, a `$` too where no single quote follows. */
  lemma CharStands(c: char, rest: string, word: string, open: bool)
    requires !IsBlank(c) && c != '\'' && c != '"' && c != '\\'
    requires c == '$' ==> rest == [] || rest[0] != '\''
    ensures Words([c] + rest, word, open) == Words(rest, word + [c], true)
  {
    assert ([c] + rest)[1..] == rest;
  }

  /** A backslash takes the next character as it is; before a line feed it vanishes with it; at the end it stands. */
  lemma BackslashTakes(c: char, rest: string, word: string, open: bool)
    ensures Words(['\\', c] + rest, word, open)
         == if c == '\n' then Words(rest, word, open) else Words(rest, word + [c], true)
    ensures Words(['\\'], word, open) == [word + ['\\']]
  {
    assert (['\\', c] + rest)[2..] == rest;
    assert ['\\'][1..] == [];
  }

  // ---- Double quotes ----

  /** What stands between double quotes: a character that is neither a double quote nor a backslash; one of the four
      that a backslash escapes; a backslash before any other. */
  datatype Part = Char(c: char) | Escaped(c: char) | Kept(c: char)

  predicate IsDoublePart(p: Part) {
    match p
    case Char(c) => c != '"' && c != '\\'
    case Escaped(c) => c == '"' || c == '\\' || c == '$' || c == '`'
    case Kept(c) => c != '"' && c != '\\' && c != '$' && c != '`'
  }

  function PartText(p: Part): string {
    match p
    case Char(c) => [c]
    case Escaped(c) => ['\\', c]
    case Kept(c) => ['\\', c]
  }

  function PartMeans(p: Part): string {
    match p
    case Char(c) => [c]
    case Escaped(c) => [c]
    case Kept(c) => ['\\', c]
  }

  function AllText(parts: seq<Part>): string {
    if parts == [] then [] else PartText(parts[0]) + AllText(parts[1..])
  }

  function AllMeans(parts: seq<Part>): string {
    if parts == [] then [] else PartMeans(parts[0]) + AllMeans(parts[1..])
  }

  lemma OneDoublePart(p: Part, more: string, word: string)
    requires IsDoublePart(p)
    ensures InQuotes(PartText(p) + more, '"', false, word) == InQuotes(more, '"', false, word + PartMeans(p))
  {
    match p
    case Char(c) => assert ([c] + more)[1..] == more;
    case Escaped(c) => assert (['\\', c] + more)[2..] == more;
    case Kept(c) =>
      assert (['\\', c] + more)[1..] == [c] + more && ([c] + more)[1..] == more;
      assert word + ['\\'] + [c] == word + ['\\', c];
      assert InQuotes([c] + more, '"', false, word + ['\\']) == InQuotes(more, '"', false, word + ['\\'] + [c]);
  }

  lemma {:induction false} DoubleParts(parts: seq<Part>, rest: string, word: string)
    requires forall i | 0 <= i < |parts| :: IsDoublePart(parts[i])
    ensures InQuotes(AllText(parts) + ['"'] + rest, '"', false, word) == (word + AllMeans(parts), rest)
  {
    if parts == [] {
      assert AllText(parts) + ['"'] + rest == ['"'] + rest && (['"'] + rest)[1..] == rest;
      assert word + AllMeans(parts) == word;
    } else {
      var p, more := parts[0], AllText(parts[1..]) + ['"'] + rest;
      Regroup4(PartText(p), AllText(parts[1..]), ['"'], rest);
      OneDoublePart(p, more, word);
      DoubleParts(parts[1..], rest, word + PartMeans(p));
      Regroup(word, PartMeans(p), AllMeans(parts[1..]));
    }
  }

  lemma CutFirst(c: char, s: string)
    ensures ([c] + s)[0] == c && ([c] + s)[1..] == s
  {
  }

  /** Everything between double quotes is one part of a word: an escaped character without its backslash, a backslash
      before any other character kept. */
  lemma DoubleQuotesRead(parts: seq<Part>, rest: string, word: string, open: bool)
    requires forall i | 0 <= i < |parts| :: IsDoublePart(parts[i])
    ensures Words(['"'] + (AllText(parts) + ['"'] + rest), word, open) == Words(rest, word + AllMeans(parts), true)
  {
    DoubleParts(parts, rest, word);
    CutFirst('"', AllText(parts) + ['"'] + rest);
  }

  /** `w` between double quotes, with a backslash before each of the four. */
  function DoubleQuoted(w: string): string {
    ['"'] + (AllText(PartsOf(w)) + ['"'])
  }

  function PartsOf(w: string): (parts: seq<Part>)
    ensures forall i | 0 <= i < |parts| :: IsDoublePart(parts[i])
  {
    if w == [] then []
    else
      var c := w[0];
      [if c == '"' || c == '\\' || c == '$' || c == '`' then Escaped(c) else Char(c)] + PartsOf(w[1..])
  }

  lemma {:induction false} PartsMean(w: string)
    ensures AllMeans(PartsOf(w)) == w
  {
    if w != [] {
      PartsMean(w[1..]);
      assert PartsOf(w)[1..] == PartsOf(w[1..]);
      assert w == [w[0]] + w[1..];
    }
  }

  /** Every text, double-quoted, reads as itself. */
  lemma DoubleQuotedReads(w: string, rest: string, word: string, open: bool)
    ensures Words(DoubleQuoted(w) + rest, word, open) == Words(rest, word + w, true)
  {
    PartsMean(w);
    DoubleQuotesRead(PartsOf(w), rest, word, open);
    Regroup(['"'], AllText(PartsOf(w)) + ['"'], rest);
  }

  // ---- Single quotes ----

  lemma {:induction false} SingleParts(w: string, rest: string, word: string)
    requires '\'' !in w
    ensures InQuotes(w + (['\''] + rest), '\'', false, word) == (word + w, rest)
  {
    if w == [] {
      assert w + (['\''] + rest) == ['\''] + rest && word + w == word;
      CutFirst('\'', rest);
    } else {
      assert (w + (['\''] + rest))[1..] == w[1..] + (['\''] + rest);
      SingleParts(w[1..], rest, word + [w[0]]);
      assert w == [w[0]] + w[1..];
      Regroup(word, [w[0]], w[1..]);
    }
  }

  /** Between single quotes every character stands for itself, backslashes too. */
  lemma SingleQuotesRead(w: string, rest: string, word: string, open: bool)
    requires '\'' !in w
    ensures Words(['\''] + (w + (['\''] + rest)), word, open) == Words(rest, word + w, true)
  {
    SingleParts(w, rest, word);
    CutFirst('\'', w + (['\''] + rest));
  }

  /** A quote that is not closed takes the rest of the text. */
  lemma UnclosedTakesAll(w: string, quote: char, word: string, open: bool)
    requires (quote == '\'' || quote == '"') && quote !in w && '\\' !in w
    ensures Words([quote] + w, word, open) == [word + w]
  {
    UnclosedPart(w, quote, word);
    CutFirst(quote, w);
  }

  lemma {:induction false} UnclosedPart(w: string, quote: char, word: string)
    requires quote !in w && '\\' !in w
    ensures InQuotes(w, quote, false, word) == (word + w, [])
  {
    if w == [] {
      assert word + w == word;
    } else {
      UnclosedPart(w[1..], quote, word + [w[0]]);
      assert w == [w[0]] + w[1..];
      Regroup(word, [w[0]], w[1..]);
    }
  }

  // ---- Dollar quotes ----

  /** What stands in `$'…'`: a character that is neither a single quote nor a backslash, or a backslash and a
      character. */
  predicate IsDollarPart(p: Part) {
    match p
    case Char(c) => c != '\'' && c != '\\'
    case Escaped(c) => true
    case Kept(_) => false
  }

  function DollarMeans(p: Part): char {
    match p
    case Escaped('n') => '\n'
    case Escaped('t') => '\t'
    case Escaped('r') => '\r'
    case _ => p.c
  }

  function AllDollarMeans(parts: seq<Part>): string {
    if parts == [] then [] else [DollarMeans(parts[0])] + AllDollarMeans(parts[1..])
  }

  lemma {:induction false} DollarParts(parts: seq<Part>, rest: string, word: string)
    requires forall i | 0 <= i < |parts| :: IsDollarPart(parts[i])
    ensures InQuotes(AllText(parts) + ['\''] + rest, '\'', true, word) == (word + AllDollarMeans(parts), rest)
  {
    if parts == [] {
      assert AllText(parts) + ['\''] + rest == ['\''] + rest && (['\''] + rest)[1..] == rest;
      assert word + AllDollarMeans(parts) == word;
    } else {
      var p, more := parts[0], AllText(parts[1..]) + ['\''] + rest;
      Regroup4(PartText(p), AllText(parts[1..]), ['\''], rest);
      OneDollarPart(p, more, word);
      DollarParts(parts[1..], rest, word + [DollarMeans(p)]);
      Regroup(word, [DollarMeans(p)], AllDollarMeans(parts[1..]));
    }
  }

  lemma OneDollarPart(p: Part, more: string, word: string)
    requires IsDollarPart(p)
    ensures InQuotes(PartText(p) + more, '\'', true, word) == InQuotes(more, '\'', true, word + [DollarMeans(p)])
  {
    match p
    case Char(c) => CharReads(c, more, word);
    case Escaped(c) => BackslashReads(c, more, word);
  }

  /** Between `$'` and a quote, `\n`, `\t` and `\r` are the characters they name, and a backslash before any other
      character is dropped. */
  lemma DollarQuotesRead(parts: seq<Part>, rest: string, word: string, open: bool)
    requires forall i | 0 <= i < |parts| :: IsDollarPart(parts[i])
    ensures Words(['$', '\''] + (AllText(parts) + ['\''] + rest), word, open)
         == Words(rest, word + AllDollarMeans(parts), true)
  {
    DollarParts(parts, rest, word);
    var inside := AllText(parts) + ['\''] + rest;
    assert (['$', '\''] + inside)[2..] == inside;
  }

  // ---- What is written bare ----

  /** What a shell gives a meaning of its own. */
  predicate IsSpecial(c: char) {
    c == ' ' || c == '\t' || c == '\n' || c == '\r' || c == '\'' || c == '"' || c == '\\' || c == '$' || c == '`'
    || c == '|' || c == '&' || c == ';' || c == '<' || c == '>' || c == '(' || c == ')' || c == '{' || c == '}'
    || c == '*' || c == '?' || c == '[' || c == ']' || c == '#' || c == '~' || c == '!' || c == '^'
  }

  /** A word is written bare only when it holds nothing a shell gives a meaning to; else it is quoted. */
  lemma SpecialIsQuoted(w: string)
    ensures var q := Quote(w);
            || (q == w && w != [] && forall i | 0 <= i < |w| :: !IsSpecial(w[i]))
            || (|q| >= 2 && q[0] == '\'' && q[|q| - 1] == '\'')
            || (|q| >= 3 && q[0] == '$' && q[1] == '\'' && q[|q| - 1] == '\'')
  {
  }

  predicate IsPlain(c: char) {
    '0' <= c <= '9' || 'A' <= c <= 'Z' || 'a' <= c <= 'z' || c in "_@%+=:,./-"
  }

  /** A character that is not printed. */
  predicate IsUnprinted(c: char) {
    (c as int) < 32 || 127 <= c as int <= 159
  }

  lemma PlainIsSafe(c: char)
    ensures IsPlain(c) <==> IsSafe(c)
  {
    var s := "_@%+=:,./-";
    assert s[0] == '_' && s[1] == '@' && s[2] == '%' && s[3] == '+' && s[4] == '=' && s[5] == ':' && s[6] == ','
        && s[7] == '.' && s[8] == '/' && s[9] == '-';
  }

  lemma {:induction false} Longer(w: string)
    ensures |SingleQuoted(w)| >= |w| && |EscapeAll(w)| >= |w|
  {
    if w != [] {
      Longer(w[1..]);
    }
  }

  /** A word is written bare exactly when it is not empty and all its characters are letters, digits or a few signs;
      else in single quotes, unless it holds what is not printed. */
  lemma HowWordsAreWritten(w: string)
    ensures Quote(w) == w <==> w != [] && forall i | 0 <= i < |w| :: IsPlain(w[i])
    ensures Quote(w) != w ==> if exists i :: 0 <= i < |w| && IsUnprinted(w[i]) then
        Quote(w)[..2] == "$'" else Quote(w)[0] == '\''
  {
    Longer(w);
    forall c: char ensures IsPlain(c) <==> IsSafe(c) {
      PlainIsSafe(c);
    }
  }

  predicate Prints(s: string) {
    forall i | 0 <= i < |s| :: !IsUnprinted(s[i])
  }

  lemma EscapePrints(c: char)
    ensures Prints(Escape(c))
  {
  }

  lemma {:induction false} WrittenPrints(w: string)
    ensures Prints(EscapeAll(w))
    ensures Prints(w) ==> Prints(SingleQuoted(w))
  {
    if w != [] {
      EscapePrints(w[0]);
      WrittenPrints(w[1..]);
    }
  }

  lemma WordPrints(w: string)
    ensures Prints(Quote(w))
  {
    WrittenPrints(w);
  }

  /** So whatever the words, their command stays on one line, and is printed as it is. */
  lemma {:induction false} CommandPrints(tokens: seq<string>)
    ensures forall i | 0 <= i < |Command(tokens)| :: !IsUnprinted(Command(tokens)[i])
  {
    JoinedPrints(tokens);
  }

  lemma {:induction false} JoinedPrints(tokens: seq<string>)
    ensures Prints(Joined(tokens))
  {
    if tokens != [] {
      WordPrints(tokens[0]);
      JoinedPrints(tokens[1..]);
    }
  }
}

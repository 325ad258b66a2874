// Splitting the value of a header line at its top-level commas, with care for quoted strings and
// comments (section 2.2 of RFC 2068).

module HeaderSplit {
  import opened Sequences

  const NUL: char := '\0'

  /** The scanner: its position, whether it is in a quoted string, and how deep in comments. */
  datatype Scan = Scan(pos: nat, quoted: bool, comments: nat)

  const START: Scan := Scan(0, false, 0)

  predicate Escapes(s: string, c: Scan)
    requires c.pos < |s|
  {
    (c.quoted || c.comments != 0) && s[c.pos] == '\\' && c.pos + 1 < |s|
  }

  /** The scanner stops at the end and at a comma outside quotes and comments. */
  predicate Stops(s: string, c: Scan)
    requires c.pos <= |s|
  {
    c.pos == |s| || (s[c.pos] == ',' && !c.quoted && c.comments == 0)
  }

  function Turn(s: string, c: Scan): (d: Scan)
    requires c.pos <= |s| && !Stops(s, c)
    ensures c.pos < d.pos <= |s|
  {
    if Escapes(s, c) then c.(pos := c.pos + 2)
    else
      var d := c.(pos := c.pos + 1);
      if c.comments == 0 && s[c.pos] == '"' then d.(quoted := !c.quoted)
      else if !c.quoted && s[c.pos] == '(' then d.(comments := c.comments + 1)
      else if c.comments != 0 && s[c.pos] == ')' then d.(comments := c.comments - 1)
      else d
  }

  function Final(s: string, c: Scan): (d: Scan)
    requires c.pos <= |s|
    ensures c.pos <= d.pos <= |s| && Stops(s, d)
    decreases |s| - c.pos
  {
    if Stops(s, c) then c else Final(s, Turn(s, c))
  }

  function Turns(s: string, n: nat): (c: Scan)
    ensures c.pos <= |s|
  {
    if n == 0 then START
    else
      var c := Turns(s, n - 1);
      if Stops(s, c) then c else Turn(s, c)
  }

  /** A quote inside a comment and a parenthesis inside quotes mean nothing. */
  lemma {:induction false} NeverQuotedInComment(s: string, n: nat)
    ensures !(Turns(s, n).quoted && Turns(s, n).comments > 0)
  {
    if n > 0 {
      NeverQuotedInComment(s, n - 1);
    }
  }

  // ---- values by their grammar, apart from the scanner ----

  /** What stands between double quotes or between parentheses, piece by piece. */
  datatype Inside =
    | End
    | Raw(c: char, rest: Inside)
    | Escaped(c: char, rest: Inside)
    | Nested(inner: Inside, rest: Inside)

  /** A header value: plain characters, quoted strings and comments. */
  datatype Phrase =
    | Empty
    | Plain(c: char, more: Phrase)
    | Quoted(inside: Inside, more: Phrase)
    | Comment(inside: Inside, more: Phrase)

  function Enclosed(open: char, t: string, close: char, more: string): string {
    [open] + (t + ([close] + more))
  }

  function InsideText(x: Inside): string {
    match x
    case End => ""
    case Raw(c, rest) => [c] + InsideText(rest)
    case Escaped(c, rest) => ['\\', c] + InsideText(rest)
    case Nested(inner, rest) => Enclosed('(', InsideText(inner), ')', InsideText(rest))
  }

  function Text(p: Phrase): string {
    match p
    case Empty => ""
    case Plain(c, more) => [c] + Text(more)
    case Quoted(inside, more) => Enclosed('"', InsideText(inside), '"', Text(more))
    case Comment(inside, more) => Enclosed('(', InsideText(inside), ')', Text(more))
  }

  /** What may stand for itself; any other character needs a backslash before it. */
  predicate RawIn(c: char, quoted: bool) {
    c != '\\' && if quoted then c != '"' else c != '(' && c != ')'
  }

  /** Quoted strings hold no comments. */
  predicate InQuotes(x: Inside) {
    match x
    case End => true
    case Raw(c, rest) => RawIn(c, true) && InQuotes(rest)
    case Escaped(_, rest) => InQuotes(rest)
    case Nested(_, _) => false
  }

  /** Comments may hold whole comments. */
  predicate InComment(x: Inside) {
    match x
    case End => true
    case Raw(c, rest) => RawIn(c, false) && InComment(rest)
    case Escaped(_, rest) => InComment(rest)
    case Nested(inner, rest) => InComment(inner) && InComment(rest)
  }

  /** Commas stand only within quoted strings and comments, and each of these is closed. */
  predicate WellFormed(p: Phrase) {
    match p
    case Empty => true
    case Plain(c, more) => c != ',' && c != '"' && c != '(' && WellFormed(more)
    case Quoted(inside, more) => InQuotes(inside) && WellFormed(more)
    case Comment(inside, more) => InComment(inside) && WellFormed(more)
  }

  ghost predicate IsPhrase(v: string) {
    exists p :: WellFormed(p) && Text(p) == v
  }

  /** A comma at position k that no quoted string and no comment contains. */
  ghost predicate SplitsAt(s: string, k: nat) {
    k < |s| && s[k] == ',' && IsPhrase(s[..k])
  }

  /** Position e is that of the one comma that splits s, or the end of s if there is none. */
  ghost predicate EndsAt(s: string, e: nat) {
    && e <= |s|
    && forall k :: 0 <= k < |s| ==> (SplitsAt(s, k) <==> k == e)
  }

  /** s holds the text t from position `at` up to `to`. */
  predicate Spells(s: string, at: nat, t: string, to: nat) {
    at <= to <= |s| && s[at..to] == t
  }

  lemma SpelledOne(s: string, at: nat, c: char, more: string, to: nat)
    requires Spells(s, at, [c] + more, to)
    ensures s[at] == c && Spells(s, at + 1, more, to)
  {
    assert s[at] == s[at..to][0];
    assert s[at + 1..to] == s[at..to][1..];
  }

  lemma SpelledTwo(s: string, at: nat, c: char, d: char, more: string, to: nat)
    requires Spells(s, at, [c, d] + more, to)
    ensures s[at] == c && at + 1 < |s| && Spells(s, at + 2, more, to)
  {
    assert [c, d] + more == [c] + ([d] + more);
    SpelledOne(s, at, c, [d] + more, to);
    SpelledOne(s, at + 1, d, more, to);
  }

  lemma SpelledParts(s: string, at: nat, a: string, b: string, to: nat)
    requires Spells(s, at, a + b, to)
    ensures Spells(s, at, a, at + |a|) && Spells(s, at + |a|, b, to)
  {
    assert s[at..at + |a|] == s[at..to][..|a|];
    assert s[at + |a|..to] == s[at..to][|a|..];
  }

  /** Where the text t ends that stands between `open` and `close` at position `at`. */
  lemma SpelledBetween(s: string, at: nat, open: char, t: string, close: char, more: string, to: nat)
    returns (end: nat)
    requires Spells(s, at, Enclosed(open, t, close, more), to)
    ensures s[at] == open && Spells(s, at + 1, t, end) && end < |s| && s[end] == close && Spells(s, end + 1, more, to)
  {
    SpelledOne(s, at, open, t + ([close] + more), to);
    SpelledParts(s, at + 1, t, [close] + more, to);
    end := at + 1 + |t|;
    SpelledOne(s, end, close, more, to);
  }

  /** The scanner goes on at `to` as it does at `at`. */
  predicate Passes(s: string, at: nat, to: nat, quoted: bool, depth: nat) {
    at <= to <= |s| && Final(s, Scan(at, quoted, depth)) == Final(s, Scan(to, quoted, depth))
  }

  lemma PassRaw(s: string, at: nat, quoted: bool, depth: nat, c: char, more: string, to: nat)
    requires (quoted <==> depth == 0) && RawIn(c, quoted) && Spells(s, at, [c] + more, to)
    ensures Passes(s, at, at + 1, quoted, depth) && Spells(s, at + 1, more, to)
  {
    SpelledOne(s, at, c, more, to);
  }

  lemma PassEscaped(s: string, at: nat, quoted: bool, depth: nat, c: char, more: string, to: nat)
    requires (quoted <==> depth == 0) && Spells(s, at, ['\\', c] + more, to)
    ensures Passes(s, at, at + 2, quoted, depth) && Spells(s, at + 2, more, to)
  {
    SpelledTwo(s, at, '\\', c, more, to);
  }

  /** The scanner passes the inside of a quoted string, whatever commas and parentheses it holds. */
  lemma {:induction false} PassQuoted(s: string, at: nat, x: Inside, to: nat)
    requires InQuotes(x) && Spells(s, at, InsideText(x), to)
    ensures Passes(s, at, to, true, 0)
    decreases x
  {
    match x {
      case End =>
      case Raw(c, rest) =>
        PassRaw(s, at, true, 0, c, InsideText(rest), to);
        PassQuoted(s, at + 1, rest, to);
      case Escaped(c, rest) =>
        PassEscaped(s, at, true, 0, c, InsideText(rest), to);
        PassQuoted(s, at + 2, rest, to);
    }
  }

  /** Likewise the inside of a comment, whatever commas and quotes it holds. */
  lemma {:induction false} PassComment(s: string, at: nat, depth: nat, x: Inside, to: nat)
    requires depth > 0 && InComment(x) && Spells(s, at, InsideText(x), to)
    ensures Passes(s, at, to, false, depth)
    decreases x
  {
    match x {
      case End =>
      case Raw(c, rest) =>
        PassRaw(s, at, false, depth, c, InsideText(rest), to);
        PassComment(s, at + 1, depth, rest, to);
      case Escaped(c, rest) =>
        PassEscaped(s, at, false, depth, c, InsideText(rest), to);
        PassComment(s, at + 2, depth, rest, to);
      case Nested(inner, rest) =>
        var end := SpelledBetween(s, at, '(', InsideText(inner), ')', InsideText(rest), to);
        PassComment(s, at + 1, depth + 1, inner, end);
        PassParentheses(s, at, end, depth);
        PassComment(s, end + 1, depth, rest, to);
    }
  }

  lemma PassParentheses(s: string, at: nat, end: nat, depth: nat)
    requires at < end < |s| && s[at] == '(' && s[end] == ')' && Passes(s, at + 1, end, false, depth + 1)
    ensures Passes(s, at, end + 1, false, depth)
  {
  }

  lemma PassQuotes(s: string, at: nat, end: nat)
    requires at < end < |s| && s[at] == '"' && s[end] == '"' && Passes(s, at + 1, end, true, 0)
    ensures Passes(s, at, end + 1, false, 0)
  {
  }

  lemma PassString(s: string, at: nat, inside: Inside, more: string, to: nat) returns (end: nat)
    requires InQuotes(inside) && Spells(s, at, Enclosed('"', InsideText(inside), '"', more), to)
    ensures Passes(s, at, end + 1, false, 0) && Spells(s, end + 1, more, to)
  {
    end := SpelledBetween(s, at, '"', InsideText(inside), '"', more, to);
    PassQuoted(s, at + 1, inside, end);
    PassQuotes(s, at, end);
  }

  lemma PassRemark(s: string, at: nat, inside: Inside, more: string, to: nat) returns (end: nat)
    requires InComment(inside) && Spells(s, at, Enclosed('(', InsideText(inside), ')', more), to)
    ensures Passes(s, at, end + 1, false, 0) && Spells(s, end + 1, more, to)
  {
    end := SpelledBetween(s, at, '(', InsideText(inside), ')', more, to);
    PassComment(s, at + 1, 1, inside, end);
    PassParentheses(s, at, end, 0);
  }

  lemma PassPlain(s: string, at: nat, c: char, more: string, to: nat)
    requires c != ',' && c != '"' && c != '(' && Spells(s, at, [c] + more, to)
    ensures Passes(s, at, at + 1, false, 0) && Spells(s, at + 1, more, to)
  {
    SpelledOne(s, at, c, more, to);
  }

  /** The scanner passes a well-formed value without a stop, whatever lies behind it. */
  lemma {:induction false} PassPhrase(s: string, at: nat, p: Phrase, to: nat)
    requires WellFormed(p) && Spells(s, at, Text(p), to)
    ensures Passes(s, at, to, false, 0)
    decreases p
  {
    match p {
      case Empty =>
      case Plain(c, more) =>
        PassPlain(s, at, c, Text(more), to);
        PassPhrase(s, at + 1, more, to);
      case Quoted(inside, more) =>
        var end := PassString(s, at, inside, Text(more), to);
        PassPhrase(s, end + 1, more, to);
      case Comment(inside, more) =>
        var end := PassRemark(s, at, inside, Text(more), to);
        PassPhrase(s, end + 1, more, to);
    }
  }

  /** From here the scanner comes to the end e of a value. */
  predicate Reaches(s: string, at: nat, quoted: bool, depth: nat, e: nat) {
    at <= |s| && Final(s, Scan(at, quoted, depth)) == Scan(e, false, 0)
  }

  lemma SpellOne(s: string, at: nat, more: string, to: nat)
    requires at < |s| && Spells(s, at + 1, more, to)
    ensures Spells(s, at, [s[at]] + more, to)
  {
    assert s[at..to] == [s[at]] + s[at + 1..to];
  }

  lemma SpellTwo(s: string, at: nat, more: string, to: nat)
    requires at + 1 < |s| && Spells(s, at + 2, more, to)
    ensures Spells(s, at, [s[at], s[at + 1]] + more, to)
  {
    SpellOne(s, at + 1, more, to);
    SpellOne(s, at, [s[at + 1]] + more, to);
    assert [s[at], s[at + 1]] + more == [s[at]] + ([s[at + 1]] + more);
  }

  lemma SpellBetween(s: string, at: nat, t: string, end: nat, more: string, to: nat)
    requires at < end < |s| && Spells(s, at + 1, t, end) && Spells(s, end + 1, more, to)
    ensures Spells(s, at, Enclosed(s[at], t, s[end], more), to)
  {
    SpellOne(s, end, more, to);
    assert s[at + 1..to] == t + ([s[end]] + more);
    SpellOne(s, at, t + ([s[end]] + more), to);
  }

  /** A backslash at the very end escapes nothing, and leaves the scanner where it is not at the top level. */
  lemma LastBackslash(s: string, quoted: bool, depth: nat)
    requires s != "" && s[|s| - 1] == '\\'
    ensures Final(s, Scan(|s| - 1, quoted, depth)) == Scan(|s|, quoted, depth)
  {
    var c := Scan(|s| - 1, quoted, depth);
    assert Turn(s, c) == Scan(|s|, quoted, depth);
  }

  lemma ReachesOn(s: string, at: nat, quoted: bool, depth: nat, e: nat)
    requires Reaches(s, at, quoted, depth, e) && (quoted <==> depth == 0)
    ensures at < |s|
    ensures s[at] == '\\' ==> at + 1 < |s| && Reaches(s, at + 2, quoted, depth, e)
    ensures RawIn(s[at], quoted) ==> Reaches(s, at + 1, quoted, depth, e)
    ensures quoted && s[at] == '"' ==> Reaches(s, at + 1, false, 0, e)
    ensures !quoted && s[at] == '(' ==> Reaches(s, at + 1, false, depth + 1, e)
    ensures !quoted && s[at] == ')' ==> Reaches(s, at + 1, false, depth - 1, e)
  {
    if at + 1 == |s| && s[at] == '\\' {
      LastBackslash(s, quoted, depth);
    }
  }

  lemma BuildRaw(s: string, at: nat, rest: Inside, end: nat) returns (x: Inside)
    requires at < |s| && Spells(s, at + 1, InsideText(rest), end)
    ensures x == Raw(s[at], rest) && Spells(s, at, InsideText(x), end)
  {
    x := Raw(s[at], rest);
    SpellOne(s, at, InsideText(rest), end);
  }

  lemma BuildEscaped(s: string, at: nat, rest: Inside, end: nat) returns (x: Inside)
    requires at + 1 < |s| && s[at] == '\\' && Spells(s, at + 2, InsideText(rest), end)
    ensures x == Escaped(s[at + 1], rest) && Spells(s, at, InsideText(x), end)
  {
    x := Escaped(s[at + 1], rest);
    SpellTwo(s, at, InsideText(rest), end);
  }

  /** From within a quoted string the scanner comes to the end of the value only behind a closing quote. */
  lemma {:induction false} ReadQuoted(s: string, at: nat, e: nat) returns (x: Inside, end: nat)
    requires Reaches(s, at, true, 0, e)
    ensures end < |s| && s[end] == '"' && InQuotes(x) && Spells(s, at, InsideText(x), end)
    ensures Reaches(s, end + 1, false, 0, e)
    decreases |s| - at
  {
    ReachesOn(s, at, true, 0, e);
    if s[at] == '"' {
      x, end := End, at;
    } else if s[at] == '\\' {
      x, end := ReadQuoted(s, at + 2, e);
      x := BuildEscaped(s, at, x, end);
    } else {
      x, end := ReadQuoted(s, at + 1, e);
      x := BuildRaw(s, at, x, end);
    }
  }

  /** A comment, in which the scanner is at `at`, goes on with x and is closed at `end`. */
  ghost predicate CommentTo(s: string, at: nat, x: Inside, end: nat) {
    end < |s| && s[end] == ')' && InComment(x) && Spells(s, at, InsideText(x), end)
  }

  lemma {:induction false} ReadComment(s: string, at: nat, depth: nat, e: nat) returns (x: Inside, end: nat)
    requires depth > 0 && Reaches(s, at, false, depth, e)
    ensures CommentTo(s, at, x, end) && Reaches(s, end + 1, false, depth - 1, e)
    decreases |s| - at
  {
    ReachesOn(s, at, false, depth, e);
    if s[at] == ')' {
      x, end := End, at;
    } else if s[at] == '(' {
      var inner, close := ReadComment(s, at + 1, depth + 1, e);
      x, end := ReadComment(s, close + 1, depth, e);
      x := BuildNested(s, at, inner, close, x, end);
    } else {
      x, end := ReadComment(s, if s[at] == '\\' then at + 2 else at + 1, depth, e);
      x := BuildPiece(s, at, x, end);
    }
  }

  lemma BuildNested(s: string, at: nat, inner: Inside, close: nat, rest: Inside, end: nat) returns (x: Inside)
    requires at < |s| && s[at] == '(' && CommentTo(s, at + 1, inner, close) && CommentTo(s, close + 1, rest, end)
    ensures CommentTo(s, at, x, end)
  {
    x := Nested(inner, rest);
    SpellBetween(s, at, InsideText(inner), close, InsideText(rest), end);
  }

  lemma BuildPiece(s: string, at: nat, rest: Inside, end: nat) returns (x: Inside)
    requires at < |s| && s[at] != '(' && s[at] != ')'
    requires CommentTo(s, if s[at] == '\\' then at + 2 else at + 1, rest, end)
    ensures CommentTo(s, at, x, end)
  {
    if s[at] == '\\' {
      x := BuildEscaped(s, at, rest, end);
    } else {
      x := BuildRaw(s, at, rest, end);
    }
  }

  /** What the scanner passes at the top level is a well-formed value. */
  lemma {:induction false} ReadPhrase(s: string, at: nat, e: nat) returns (p: Phrase)
    requires Reaches(s, at, false, 0, e)
    ensures WellFormed(p) && Spells(s, at, Text(p), e)
    decreases |s| - at
  {
    if Stops(s, Scan(at, false, 0)) {
      p := Empty;
    } else if s[at] == '"' {
      var inside, end := ReadQuoted(s, at + 1, e);
      p := ReadPhrase(s, end + 1, e);
      SpellBetween(s, at, InsideText(inside), end, Text(p), e);
      p := Quoted(inside, p);
    } else if s[at] == '(' {
      var inside, end := ReadComment(s, at + 1, 1, e);
      p := ReadPhrase(s, end + 1, e);
      SpellBetween(s, at, InsideText(inside), end, Text(p), e);
      p := Comment(inside, p);
    } else {
      p := ReadPhrase(s, at + 1, e);
      SpellOne(s, at, Text(p), e);
      p := Plain(s[at], p);
    }
  }

  /** The scanner ends where the grammar says: at the one comma that is outside quoted strings and
      comments, or at the end of the line if there is none. */
  lemma ScannerFindsEnd(s: string)
    ensures EndsAt(s, Final(s, START).pos)
  {
    var c := Final(s, START);
    forall k | 0 <= k < |s|
      ensures SplitsAt(s, k) <==> k == c.pos
    {
      if SplitsAt(s, k) {
        var p :| WellFormed(p) && Text(p) == s[..k];
        assert s[0..k] == s[..k];
        PassPhrase(s, 0, p, k);
      }
      if k == c.pos {
        var p := ReadPhrase(s, 0, k);
        assert s[0..k] == s[..k];
      }
    }
  }

  /** The scanner passes v alone, and is outside quotes and comments behind it, exactly if v is a
      well-formed value. */
  lemma BalancedIffPhrase(v: string)
    ensures Final(v, START) == Scan(|v|, false, 0) <==> IsPhrase(v)
  {
    assert v[0..|v|] == v;
    if Final(v, START) == Scan(|v|, false, 0) {
      var p := ReadPhrase(v, 0, |v|);
    }
    if p :| WellFormed(p) && Text(p) == v {
      PassPhrase(v, 0, p, |v|);
    }
  }

  // ---- what the loop emits ----

  function TrimLeft(s: string): string {
    if s != "" && s[0] == ' ' then s[1..] else s
  }

  function TrimRight(s: string): string {
    if s != "" && s[|s| - 1] == ' ' then s[..|s| - 1] else s
  }

  /** Where the first value of s ends; a header that may not repeat has one value only. */
  function ValueEnd(s: string, multiple: bool): (end: nat)
    ensures end <= |s|
  {
    if multiple then Final(s, START).pos else |s|
  }

  function NonEmpty(value: string): seq<string> {
    if value == "" then [] else [value]
  }

  function First(s: string, multiple: bool): string {
    var v := TrimLeft(s);
    TrimRight(v[..ValueEnd(v, multiple)])
  }

  /** What is left behind the first value and its comma. */
  function Rest(s: string, multiple: bool): (r: string)
    ensures s != "" ==> |r| < |s|
  {
    var v := TrimLeft(s);
    var end := ValueEnd(v, multiple);
    if end < |v| then v[end + 1..] else ""
  }

  function Split(s: string, multiple: bool): seq<string>
    decreases |s|
  {
    if s == "" then [] else NonEmpty(First(s, multiple)) + Split(Rest(s, multiple), multiple)
  }

  // ---- splitting undoes joining ----

  /** A well-formed value that survives trimming. */
  ghost predicate Value(v: string) {
    v != "" && v[0] != ' ' && v[|v| - 1] != ' ' && IsPhrase(v)
  }

  ghost predicate Values(vs: seq<string>) {
    forall i :: 0 <= i < |vs| ==> Value(vs[i])
  }

  function Separator(spaced: bool): string {
    if spaced then ", " else ","
  }

  /** The values joined by "," or ", ", as `spaced` says for each of them. */
  function Join(vs: seq<string>, spaced: seq<bool>): string
    requires |spaced| == |vs|
  {
    if vs == [] then ""
    else if |vs| == 1 then vs[0]
    else vs[0] + Separator(spaced[0]) + Join(vs[1..], spaced[1..])
  }

  /** The scanner stops right behind a well-formed value, if the line ends there or a comma follows. */
  lemma ScanOver(v: string, rest: string)
    requires IsPhrase(v) && (rest == "" || rest[0] == ',')
    ensures Final(v + rest, START) == Scan(|v|, false, 0)
  {
    var p :| WellFormed(p) && Text(p) == v;
    assert (v + rest)[0..|v|] == v;
    PassPhrase(v + rest, 0, p, |v|);
  }

  lemma FirstAndRest(v: string, rest: string)
    requires Value(v) && (rest == "" || rest[0] == ',')
    ensures First(v + rest, true) == v
    ensures Rest(v + rest, true) == if rest == "" then "" else rest[1..]
  {
    var s := v + rest;
    assert s[0] == v[0];
    ScanOver(v, rest);
    assert s[..|v|] == v;
    if rest != "" {
      assert s[|v| + 1..] == rest[1..];
    }
  }

  lemma FirstValue(v: string, rest: string)
    requires Value(v) && (rest == "" || rest[0] == ',')
    ensures Split(v + rest, true) == [v] + Split(if rest == "" then "" else rest[1..], true)
  {
    FirstAndRest(v, rest);
  }

  lemma LeadingSpace(s: string)
    requires s == "" || s[0] != ' '
    ensures Split(" " + s, true) == Split(s, true)
  {
    TrimSpace(s);
    SameTrimmed(" " + s, s);
  }

  lemma TrimSpace(s: string)
    requires s == "" || s[0] != ' '
    ensures TrimLeft(" " + s) == TrimLeft(s) == s
  {
    assert (" " + s)[1..] == s;
  }

  lemma SameTrimmed(s: string, t: string)
    requires s != "" && TrimLeft(s) == TrimLeft(t) == t
    ensures Split(s, true) == Split(t, true)
  {
    assert First(s, true) == First(t, true) && Rest(s, true) == Rest(t, true);
    if t == "" {
      assert Split("", true) == [];
    }
  }

  lemma JoinStart(vs: seq<string>, spaced: seq<bool>)
    requires |spaced| == |vs| && Values(vs) && vs != []
    ensures Join(vs, spaced) != "" && Join(vs, spaced)[0] == vs[0][0]
  {
  }

  /** Any values joined by commas, with or without a space behind each comma, are split into the same values. */
  lemma {:induction false} SplitUndoesJoin(vs: seq<string>, spaced: seq<bool>)
    requires |spaced| == |vs| && Values(vs)
    ensures Split(Join(vs, spaced), true) == vs
    decreases |vs|
  {
    if |vs| == 1 {
      SplitOne(vs[0]);
    } else if |vs| > 1 {
      SplitUndoesJoin(vs[1..], spaced[1..]);
      SplitFirst(vs, spaced);
    }
  }

  lemma SplitOne(v: string)
    requires Value(v)
    ensures Split(v, true) == [v]
  {
    FirstAndRest(v, "");
    assert v + "" == v;
    NothingLeft(v);
  }

  lemma NothingLeft(v: string)
    requires v != "" && First(v, true) == v && Rest(v, true) == ""
    ensures Split(v, true) == [v]
  {
    assert Split("", true) == [];
  }

  lemma SplitFirst(vs: seq<string>, spaced: seq<bool>)
    requires |spaced| == |vs| > 1 && Values(vs)
    ensures Split(Join(vs, spaced), true) == [vs[0]] + Split(Join(vs[1..], spaced[1..]), true)
  {
    FirstJoined(vs, spaced);
    JoinStart(vs[1..], spaced[1..]);
    LeadingSpace(Join(vs[1..], spaced[1..]));
  }

  /** The space that usually follows the colon makes no difference. */
  lemma SplitUndoesJoinBehindColon(vs: seq<string>, spaced: seq<bool>)
    requires |spaced| == |vs| && Values(vs)
    ensures Split(" " + Join(vs, spaced), true) == vs
  {
    SplitUndoesJoin(vs, spaced);
    if vs != [] {
      JoinStart(vs, spaced);
    }
    LeadingSpace(Join(vs, spaced));
  }

  lemma JoinFirst(vs: seq<string>, spaced: seq<bool>)
    requires |spaced| == |vs| > 1
    ensures Join(vs, spaced) == vs[0] + (Separator(spaced[0]) + Join(vs[1..], spaced[1..]))
  {
  }

  lemma BehindComma(spaced: bool, rest: string)
    ensures (Separator(spaced) + rest)[0] == ','
    ensures (Separator(spaced) + rest)[1..] == if spaced then " " + rest else rest
  {
  }

  lemma FirstJoined(vs: seq<string>, spaced: seq<bool>)
    requires |spaced| == |vs| > 1 && Value(vs[0])
    ensures var rest := Join(vs[1..], spaced[1..]);
            Split(Join(vs, spaced), true) == [vs[0]] + Split(if spaced[0] then " " + rest else rest, true)
  {
    JoinFirst(vs, spaced);
    BehindComma(spaced[0], Join(vs[1..], spaced[1..]));
    FirstValue(vs[0], Separator(spaced[0]) + Join(vs[1..], spaced[1..]));
  }

  // ---- spaces, empty values, and headers that may not repeat ----

  /** A value behind at most one space, and before at most one. */
  function Padded(before: bool, v: string, after: bool): string {
    (if before then " " else "") + (v + if after then " " else "")
  }

  lemma TrimPadded(before: bool, v: string, after: bool)
    requires v != "" && (before || v[0] != ' ') && (after || v[|v| - 1] != ' ')
    ensures TrimLeft(Padded(before, v, after)) == v + (if after then " " else "")
    ensures TrimRight(v + (if after then " " else "")) == v
    ensures Padded(before, v, after) != ""
  {
    var tail := v + if after then " " else "";
    assert tail[0] == v[0];
    if before {
      assert Padded(before, v, after)[1..] == tail;
    } else {
      assert Padded(before, v, after) == tail;
    }
    if after {
      assert tail[..|tail| - 1] == v;
    } else {
      assert tail == v;
    }
  }

  /** The value of a header that may not repeat is one value, whatever commas, quotes and parentheses it
      holds; one space in front and one behind are dropped, no more. */
  lemma OneValueIfNotMultiple(before: bool, v: string, after: bool)
    requires v != "" && (before || v[0] != ' ') && (after || v[|v| - 1] != ' ')
    ensures Split(Padded(before, v, after), false) == [v]
  {
    var s := Padded(before, v, after);
    TrimPadded(before, v, after);
    var tail := TrimLeft(s);
    assert tail[..|tail|] == tail;
    assert First(s, false) == v && Rest(s, false) == "";
    SplitIsFirst(s, false);
  }

  lemma SplitIsFirst(s: string, multiple: bool)
    requires s != "" && First(s, multiple) != "" && Rest(s, multiple) == ""
    ensures Split(s, multiple) == [First(s, multiple)]
  {
    assert Split("", multiple) == [];
  }

  lemma {:induction false} PhraseWithSpace(p: Phrase) returns (q: Phrase)
    requires WellFormed(p)
    ensures WellFormed(q) && Text(q) == Text(p) + " "
    decreases p
  {
    match p {
      case Empty =>
        q := Plain(' ', Empty);
      case Plain(c, more) =>
        q := PhraseWithSpace(more);
        Regroup([c], Text(more), " ");
        q := Plain(c, q);
      case Quoted(inside, more) =>
        q := PhraseWithSpace(more);
        EnclosedThen('"', InsideText(inside), '"', Text(more), " ");
        q := Quoted(inside, q);
      case Comment(inside, more) =>
        q := PhraseWithSpace(more);
        EnclosedThen('(', InsideText(inside), ')', Text(more), " ");
        q := Comment(inside, q);
    }
  }

  lemma EnclosedThen(open: char, t: string, close: char, more: string, tail: string)
    ensures Enclosed(open, t, close, more + tail) == Enclosed(open, t, close, more) + tail
  {
  }

  lemma PaddedIsPhrase(v: string, after: bool)
    requires IsPhrase(v)
    ensures IsPhrase(v + if after then " " else "")
  {
    if after {
      var p :| WellFormed(p) && Text(p) == v;
      var q := PhraseWithSpace(p);
    } else {
      assert v + "" == v;
    }
  }

  /** Of a header that may repeat: a well-formed value before a comma is emitted without one space in front
      and one behind, and the rest of the line is split behind the comma. */
  lemma FirstPadded(before: bool, v: string, after: bool, rest: string)
    requires IsPhrase(v) && v != "" && (before || v[0] != ' ') && (after || v[|v| - 1] != ' ')
    ensures Split(Padded(before, v, after) + ("," + rest), true) == [v] + Split(rest, true)
  {
    var s, tail := Padded(before, v, after) + ("," + rest), v + if after then " " else "";
    TrimPadded(before, v, after);
    PaddedIsPhrase(v, after);
    ScanOver(tail, "," + rest);
    TrimBefore(Padded(before, v, after), "," + rest);
    PiecesBeforeComma(s, tail, rest);
  }

  lemma TrimBefore(a: string, b: string)
    requires a != ""
    ensures TrimLeft(a + b) == TrimLeft(a) + b
  {
    assert (a + b)[0] == a[0];
    assert (a + b)[1..] == a[1..] + b;
  }

  lemma PiecesBeforeComma(s: string, tail: string, rest: string)
    requires s != "" && TrimLeft(s) == tail + ("," + rest) && Final(tail + ("," + rest), START).pos == |tail|
    ensures Split(s, true) == NonEmpty(TrimRight(tail)) + Split(rest, true)
  {
    var v := tail + ("," + rest);
    assert v[..|tail|] == tail && v[|tail| + 1..] == rest;
  }

  /** An empty value between two commas, with or without a space, is dropped. */
  lemma EmptyValueDropped(spaced: bool, rest: string)
    ensures Split((if spaced then " " else "") + ("," + rest), true) == Split(rest, true)
  {
    var s := (if spaced then " " else "") + ("," + rest);
    if spaced {
      assert s[1..] == "," + rest;
    } else {
      assert s == "," + rest;
    }
    assert "" + ("," + rest) == "," + rest;
    PiecesBeforeComma(s, "", rest);
    assert [] + Split(rest, true) == Split(rest, true);
  }

  /** What is emitted of a whole text: the joined values of a header that may repeat, or the one value of
      a header that may not. */
  ghost predicate SplitsRight(text: string, multiple: bool, headers: seq<string>) {
    && (multiple ==> forall vs, spaced ::
          |spaced| == |vs| && Values(vs) && (text == Join(vs, spaced) || text == " " + Join(vs, spaced)) ==>
            headers == vs)
    && (!multiple ==> forall before, v, after ::
          v != "" && (before || v[0] != ' ') && (after || v[|v| - 1] != ' ') && text == Padded(before, v, after) ==>
            headers == [v])
  }

  lemma SplitIsRight(text: string, multiple: bool)
    ensures SplitsRight(text, multiple, Split(text, multiple))
  {
    if multiple {
      forall vs, spaced |
        |spaced| == |vs| && Values(vs) && (text == Join(vs, spaced) || text == " " + Join(vs, spaced))
        ensures Split(text, true) == vs
      {
        SplitUndoesJoin(vs, spaced);
        SplitUndoesJoinBehindColon(vs, spaced);
      }
    } else {
      forall before, v, after |
        v != "" && (before || v[0] != ' ') && (after || v[|v| - 1] != ' ') && text == Padded(before, v, after)
        ensures Split(text, false) == [v]
      {
        OneValueIfNotMultiple(before, v, after);
      }
    }
  }

  // ---- the loop, on the line buffer ----

  /** strlen and copy: the characters from `from` up to the first NUL. */
  method StringAt(line: array<char>, from: nat, ghost stop: nat) returns (s: string)
    requires from <= stop < line.Length && line[stop] == NUL
    requires forall i :: from <= i < stop ==> line[i] != NUL
    ensures s == line[from..stop]
  {
    var i := from;
    while line[i] != NUL
      invariant from <= i <= stop
      decreases stop - i
    {
      i := i + 1;
    }
    s := line[from..i];
  }

  /** The inner loop: from the start of a value to its end. */
  method FindEnd(line: array<char>, value: nat, ghost stop: nat) returns (next: nat)
    requires value <= stop < line.Length && line[stop] == NUL
    requires forall i :: value <= i < stop ==> line[i] != NUL
    ensures value <= next <= stop && EndsAt(line[value..stop], next - value)
    ensures next == value + Final(line[value..stop], START).pos
  {
    ghost var s := line[value..stop];
    ScannerFindsEnd(s);
    next := value;
    var quoted, comments := false, 0;
    while line[next] != NUL
      invariant value <= next <= stop
      invariant Final(s, START) == Final(s, Scan(next - value, quoted, comments))
      decreases stop - next
    {
      ghost var c := Scan(next - value, quoted, comments);
      assert s[c.pos] == line[next];
      if (quoted || comments != 0) && line[next] == '\\' && line[next + 1] != NUL {
        next := next + 1;
      } else if comments == 0 && line[next] == '"' {
        quoted := !quoted;
      } else if !quoted && line[next] == '(' {
        comments := comments + 1;
      } else if comments != 0 && line[next] == ')' {
        comments := comments - 1;
      } else if !quoted && comments == 0 {
        if line[next] == ',' {
          return;
        }
      }
      next := next + 1;
      assert Turn(s, c) == Scan(next - value, quoted, comments);
    }
  }

  /** A C string: no NUL in from..stop, and one at stop. */
  predicate Terminated(line: seq<char>, from: nat, stop: nat) {
    from <= stop < |line| && line[stop] == NUL && forall i :: from <= i < stop ==> line[i] != NUL
  }

  /** Between from and to some characters have become NUL, and nothing else has changed. */
  predicate Blanked(was: seq<char>, now: seq<char>, from: nat, to: nat) {
    |was| == |now| && forall i :: 0 <= i < |now| ==> now[i] == was[i] || (from <= i < to && now[i] == NUL)
  }

  lemma BlankedSlice(was: seq<char>, now: seq<char>, from: nat, to: nat, stop: nat)
    requires Blanked(was, now, from, to) && Terminated(was, from, stop) && from <= to <= stop
    ensures now[to..stop] == was[to..stop] && Terminated(now, to, stop)
  {
  }

  /** The line once NUL has been written behind the value in value..end, and over a space at its end. */
  function Ended(line: seq<char>, value: nat, end: nat): seq<char>
    requires value <= end < |line|
  {
    if value != end && line[end - 1] == ' ' then line[end - 1 := NUL][end := NUL] else line[end := NUL]
  }

  /** The line holds v as a C string. */
  predicate StandsAt(line: seq<char>, at: nat, v: string) {
    at + |v| < |line| && line[at..at + |v|] == v && line[at + |v|] == NUL
  }

  /** Ends the value that lies in value..end with NUL, without a trailing space, and reads it. */
  method CutValue(line: array<char>, value: nat, end: nat, ghost stop: nat) returns (found: seq<string>, next: nat)
    requires Terminated(line[..], value, stop) && value <= end <= stop
    modifies line
    ensures found == NonEmpty(TrimRight(old(line[value..end])))
    ensures next == if end < stop then end + 1 else stop
    ensures line[..] == Ended(old(line[..]), value, end) && Blanked(old(line[..]), line[..], value, next)
    ensures found != [] ==> StandsAt(line[..], value, found[0])
  {
    ghost var last := end;
    if value != end && line[end - 1] == ' ' {
      line[end - 1] := NUL;
      last := end - 1;
    }
    next := end;
    if line[next] != NUL {
      line[next] := NUL;
      next := next + 1;
    }
    assert line[value..last] == TrimRight(old(line[value..end]));
    found := [];
    if line[value] != NUL {
      var text := StringAt(line, value, last);
      found := [text];
    }
  }

  /** Where the value that starts at `value` ends. */
  method FindValueEnd(line: array<char>, value: nat, ghost stop: nat, multiple: bool) returns (end: nat)
    requires Terminated(line[..], value, stop)
    ensures end == value + ValueEnd(line[value..stop], multiple)
  {
    if multiple {
      end := FindEnd(line, value, stop);
    } else {
      var whole := StringAt(line, value, stop);
      end := value + |whole|;
    }
  }

  lemma Pieces(s: string, v: string, end: nat, multiple: bool)
    requires v == TrimLeft(s) && end == ValueEnd(v, multiple)
    ensures First(s, multiple) == TrimRight(v[..end])
    ensures Rest(s, multiple) == if end < |v| then v[end + 1..] else ""
  {
  }

  /** The same of a value v that lies in the line up to `stop`. */
  lemma PiecesOfLine(line: seq<char>, value: nat, end: nat, stop: nat, s: string, v: string, multiple: bool)
    requires value <= end <= stop <= |line| && v == line[value..stop] && v == TrimLeft(s)
    requires end == value + ValueEnd(v, multiple)
    ensures First(s, multiple) == TrimRight(line[value..end])
    ensures Rest(s, multiple) == line[(if end < stop then end + 1 else stop)..stop]
  {
    Pieces(s, v, end - value, multiple);
    Slices(line, value, stop, end - value);
    if end < stop {
      Slices(line, value, stop, end - value + 1);
    }
  }

  lemma Slices(line: seq<char>, from: nat, to: nat, n: nat)
    requires from + n <= to <= |line|
    ensures line[from..to][..n] == line[from..from + n]
    ensures line[from..to][n..] == line[from + n..to]
  {
  }

  /** One turn of the loop: the value that starts here, if it is not empty, and where the next one starts. */
  method TakeValue(line: array<char>, start: nat, ghost stop: nat, multiple: bool)
    returns (found: seq<string>, next: nat)
    requires Terminated(line[..], start, stop) && start < stop
    modifies line
    ensures start < next <= stop && Terminated(line[..], next, stop)
    ensures found == NonEmpty(First(old(line[..])[start..stop], multiple))
    ensures line[..][next..stop] == Rest(old(line[..])[start..stop], multiple)
    ensures found != [] ==> StandsAt(line[..], start, found[0]) || StandsAt(line[..], start + 1, found[0])
    ensures Blanked(old(line[..]), line[..], start, next)
  {
    ghost var was := line[..];
    var value := start;
    if line[value] == ' ' {
      value := value + 1;
    }
    ghost var s, v := was[start..stop], was[value..stop];
    assert v == TrimLeft(s) && v == line[value..stop];
    var end := FindValueEnd(line, value, stop, multiple);
    assert was[value..end] == line[value..end];
    PiecesOfLine(was, value, end, stop, s, v, multiple);
    found, next := CutValue(line, value, end, stop);
    BlankedSlice(was, line[..], value, next, stop);
  }

  /** Of the values of `all` those in `headers` have been emitted, and `left` is still to be split. */
  ghost predicate Emitted(all: string, multiple: bool, headers: seq<string>, left: string) {
    headers + Split(left, multiple) == Split(all, multiple)
  }

  lemma EmittedOn(all: string, multiple: bool, headers: seq<string>, left: string)
    requires Emitted(all, multiple, headers, left) && left != ""
    ensures Emitted(all, multiple, headers + NonEmpty(First(left, multiple)), Rest(left, multiple))
  {
    Regroup(headers, NonEmpty(First(left, multiple)), Split(Rest(left, multiple), multiple));
  }

  lemma EmittedAll(all: string, multiple: bool, headers: seq<string>)
    ensures Emitted(all, multiple, [], all)
    ensures Emitted(all, multiple, headers, "") ==> headers == Split(all, multiple)
  {
    assert [] + Split(all, multiple) == Split(all, multiple);
    assert headers + [] == headers;
  }

  /** The loop of ParseLine over the value part of a line, for a field other than the two authenticate
      fields. The ends of the values are overwritten with NUL. */
  method EmitValues(line: array<char>, start: nat, ghost stop: nat, multiple: bool) returns (headers: seq<string>)
    requires Terminated(line[..], start, stop)
    modifies line
    ensures headers == Split(old(line[..])[start..stop], multiple)
    ensures Blanked(old(line[..]), line[..], start, stop)
  {
    headers := [];
    var value := start;
    ghost var was := line[..];
    ghost var all := was[start..stop];
    EmittedAll(all, multiple, headers);
    while line[value] != NUL
      invariant start <= value <= stop && Terminated(line[..], value, stop)
      invariant Blanked(was, line[..], start, value)
      invariant Emitted(all, multiple, headers, line[..][value..stop])
      decreases stop - value
    {
      ghost var left := line[..][value..stop];
      EmittedOn(all, multiple, headers, left);
      var found;
      found, value := TakeValue(line, value, stop, multiple);
      headers := headers + found;
    }
    EmittedAll(all, multiple, headers);
  }

  /** The value part of a line: what is emitted is right for any header, one that may repeat or not. */
  method SplitLine(line: array<char>, start: nat, ghost stop: nat, multiple: bool) returns (headers: seq<string>)
    requires Terminated(line[..], start, stop)
    modifies line
    ensures headers == Split(old(line[..])[start..stop], multiple)
    ensures SplitsRight(old(line[..])[start..stop], multiple, headers)
    ensures Blanked(old(line[..]), line[..], start, stop)
  {
    SplitIsRight(line[..][start..stop], multiple);
    headers := EmitValues(line, start, stop, multiple);
  }
}

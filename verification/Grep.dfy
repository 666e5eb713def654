/**
 * The matcher of user/grep.c against the language of the parsed pattern, and the line buffer of grep against the
 * plain list of matching lines. C strings are sequences of characters without a final zero.
 */
module Grep {

  // ---------------------------------------------------------------- patterns and their language

  datatype Atom = Any | Lit(c: char)

  /** One character, any number of characters, or the end of the text. */
  datatype Item = One(a: Atom) | Star(a: Atom) | End

  function AtomOf(c: char): Atom { if c == '.' then Any else Lit(c) }

  function Parse(re: string): seq<Item> {
    if re == [] then []
    else if |re| > 1 && re[1] == '*' then [Star(AtomOf(re[0]))] + Parse(re[2..])
    else if re == "$" then [End]
    else [One(AtomOf(re[0]))] + Parse(re[1..])
  }

  predicate Fits(a: Atom, c: char) { a.Any? || a.c == c }

  predicate AllFit(a: Atom, w: string) {
    forall i :: 0 <= i < |w| ==> Fits(a, w[i])
  }

  /** The words of a pattern; where they end is a matter of the whole text. */
  ghost predicate InLanguage(items: seq<Item>, w: string) {
    if items == [] then w == []
    else match items[0]
      case End => InLanguage(items[1..], w)
      case One(a) => w != [] && Fits(a, w[0]) && InLanguage(items[1..], w[1..])
      case Star(a) => exists u: string, v: string :: w == u + v && AllFit(a, u) && InLanguage(items[1..], v)
  }

  /** A word of the pattern starts the text, and is all of it if the pattern ends in the end of the text. */
  ghost predicate Begins(items: seq<Item>, text: string) {
    exists w: string :: w <= text && InLanguage(items, w) && (End in items ==> w == text)
  }

  /** What grep promises: a substring in the language, at the start under ^ and at the end under $. */
  ghost predicate Accepts(re: string, text: string) {
    if re != [] && re[0] == '^' then Begins(Parse(re[1..]), text)
    else exists u: string, v: string :: text == u + v && Begins(Parse(re), v)
  }

  // ---------------------------------------------------------------- one step of the pattern

  lemma {:induction false} BeginsNothing(text: string)
    ensures Begins([], text)
  {
    var w: string := [];
    assert w <= text && InLanguage([], w);
  }

  lemma {:induction false} BeginsEnd(text: string)
    ensures Begins([End], text) <==> text == []
  {
    if text == [] {
      assert InLanguage([End][1..], text);
      assert text <= text && InLanguage([End], text);
    }
    if w: string :| w <= text && InLanguage([End], w) && w == text {
      assert InLanguage([End][1..], w);
    }
  }

  lemma {:induction false} BeginsOne(a: Atom, rest: seq<Item>, text: string)
    ensures Begins([One(a)] + rest, text) <==> text != [] && Fits(a, text[0]) && Begins(rest, text[1..])
  {
    var items := [One(a)] + rest;
    assert items[1..] == rest && (End in items <==> End in rest);
    if Begins(items, text) {
      var w: string :| w <= text && InLanguage(items, w) && (End in items ==> w == text);
      assert w[1..] <= text[1..] && InLanguage(rest, w[1..]);
    }
    if text != [] && Fits(a, text[0]) && Begins(rest, text[1..]) {
      var v: string :| v <= text[1..] && InLanguage(rest, v) && (End in rest ==> v == text[1..]);
      var w := [text[0]] + v;
      assert w[1..] == v && w <= text && InLanguage(items, w);
    }
  }

  lemma {:induction false} BeginsStar(a: Atom, rest: seq<Item>, text: string)
    ensures Begins([Star(a)] + rest, text) <==>
      exists k :: 0 <= k <= |text| && AllFit(a, text[..k]) && Begins(rest, text[k..])
  {
    var items := [Star(a)] + rest;
    assert items[1..] == rest && (End in items <==> End in rest);
    if Begins(items, text) {
      var w: string :| w <= text && InLanguage(items, w) && (End in items ==> w == text);
      var u: string, v: string :| w == u + v && AllFit(a, u) && InLanguage(items[1..], v);
      assert text[..|u|] == u && v <= text[|u|..];
      assert Begins(rest, text[|u|..]);
    }
    if k :| 0 <= k <= |text| && AllFit(a, text[..k]) && Begins(rest, text[k..]) {
      var v: string :| v <= text[k..] && InLanguage(rest, v) && (End in rest ==> v == text[k..]);
      var w := text[..k] + v;
      assert w <= text && InLanguage(items, w);
    }
  }

  // ---------------------------------------------------------------- the matcher

  /** matchhere: a word of the pattern starts the text. */
  method MatchHere(re: string, text: string) returns (b: bool)
    ensures b <==> Begins(Parse(re), text)
    decreases |re|, 0
  {
    if re == [] {
      BeginsNothing(text);
      return true;
    }
    if |re| > 1 && re[1] == '*' {
      b := MatchStar(re[0], re[2..], text);
      return;
    }
    if re[0] == '$' && |re| == 1 {
      BeginsEnd(text);
      return text == [];
    }
    BeginsOne(AtomOf(re[0]), Parse(re[1..]), text);
    if text != [] && (re[0] == '.' || re[0] == text[0]) {
      b := MatchHere(re[1..], text[1..]);
      return;
    }
    return false;
  }

  /** matchstar: any number of the character, then a word of the rest of the pattern. */
  method MatchStar(c: char, re: string, text: string) returns (b: bool)
    ensures b <==> Begins([Star(AtomOf(c))] + Parse(re), text)
    decreases |re|, 1
  {
    hide Begins, Parse, InLanguage;
    BeginsStar(AtomOf(c), Parse(re), text);
    var t := 0;
    b := MatchHere(re, text);
    if b {
      assert AllFit(AtomOf(c), text[..0]) && text[0..] == text;
      return;
    }
    while t < |text| && (text[t] == c || c == '.')
      invariant 0 <= t <= |text| && AllFit(AtomOf(c), text[..t])
      invariant forall k :: 0 <= k <= t ==> !Begins(Parse(re), text[k..])
    {
      t := t + 1;
      b := MatchHere(re, text[t..]);
      if b {
        return;
      }
    }
    assert t < |text| ==> !Fits(AtomOf(c), text[t]);
    forall k | t < k <= |text| ensures !AllFit(AtomOf(c), text[..k]) {
      assert text[..k][t] == text[t];
    }
  }

  /** match: the text has a substring in the language of the pattern. */
  method Match(re: string, text: string) returns (b: bool)
    ensures b <==> Accepts(re, text)
  {
    if re != [] && re[0] == '^' {
      b := MatchHere(re[1..], text);
      return;
    }
    var t := 0;
    while true
      invariant 0 <= t <= |text|
      invariant forall k :: 0 <= k < t ==> !Begins(Parse(re), text[k..])
      decreases |text| - t
    {
      b := MatchHere(re, text[t..]);
      if b {
        assert text == text[..t] + text[t..];
        return;
      }
      if t == |text| {
        break;
      }
      t := t + 1;
    }
    forall u: string, v: string | text == u + v ensures !Begins(Parse(re), v) {
      assert v == text[|u|..];
    }
  }

  // ---------------------------------------------------------------- the line buffer

  const BUF := 1024

  /** The length of the first line, without its newline; the whole text if there is none. */
  function LineLength(s: string): (n: nat)
    ensures n <= |s| && (n < |s| ==> s[n] == '\n') && forall i :: 0 <= i < n ==> s[i] != '\n'
  {
    if s == [] || s[0] == '\n' then 0 else 1 + LineLength(s[1..])
  }

  /** The accepted lines of a text, up to the first line that does not fit the buffer or has no end. */
  ghost function Selected(re: string, s: string): string
    decreases |s|
  {
    var n := LineLength(s);
    if n == |s| || n >= BUF - 1 then []
    else (if Accepts(re, s[..n]) then s[..n + 1] else []) + Selected(re, s[n + 1..])
  }

  /** The first newline of the text `s` is at `n`. */
  lemma {:induction false} LineIs(s: string, n: nat)
    requires n <= |s| && (n < |s| ==> s[n] == '\n') && forall i :: 0 <= i < n ==> s[i] != '\n'
    ensures LineLength(s) == n
  {
  }

  /** How many bytes a read brings, of those that were asked for and those that are there. */
  function ReadCount(want: nat, space: nat, left: nat): (n: nat)
    ensures n <= space && n <= left && (n == 0 <==> space == 0 || left == 0)
  {
    var most := if space < left then space else left;
    if most == 0 then 0 else if want == 0 then 1 else if want < most then want else most
  }

  /** strchr: the first newline in the filled part of the buffer, or its end. */
  method FindNewline(buf: array<char>, p: nat, m: nat) returns (q: nat)
    requires p <= m < buf.Length
    ensures p <= q <= m && (q < m ==> buf[q] == '\n') && forall i :: p <= i < q ==> buf[i] != '\n'
  {
    q := p;
    while q < m && buf[q] != '\n'
      invariant p <= q <= m && forall i :: p <= i < q ==> buf[i] != '\n'
    {
      q := q + 1;
    }
  }

  /** The line that starts at `p` and ends at `q`, in a text from the first byte of the buffer on. */
  lemma {:induction false} NextLine(re: string, s: string, p: nat, q: nat)
    requires p <= q < |s| && s[q] == '\n' && q - p < BUF - 1 && forall i :: p <= i < q ==> s[i] != '\n'
    ensures Selected(re, s[p..]) == (if Accepts(re, s[p..q]) then s[p..q + 1] else []) + Selected(re, s[q + 1..])
  {
    var rest := s[p..];
    LineIs(rest, q - p);
    assert rest[..q - p] == s[p..q] && rest[..q - p + 1] == s[p..q + 1] && rest[q - p + 1..] == s[q + 1..];
  }

  lemma {:induction false} Append(a: string, b: string, c: string, d: string, e: string)
    requires a == b + c && c == d + e
    ensures a == (b + d) + e
  {
  }

  /** Write out the accepted lines that are complete; the rest of the buffer starts at `p`. */
  method Scan(re: string, buf: array<char>, m: nat, ghost s: string) returns (out: string, p: nat)
    requires m < buf.Length == BUF && m <= |s| && forall i :: 0 <= i < m ==> buf[i] == s[i]
    modifies buf
    ensures p <= m && forall i :: p <= i < m ==> buf[i] == s[i] && s[i] != '\n'
    ensures Selected(re, s) == out + Selected(re, s[p..])
  {
    hide Selected, Accepts;
    p, out := 0, [];
    assert s[0..] == s;
    var q := FindNewline(buf, p, m);
    while q < m
      invariant p <= q <= m && (q < m ==> buf[q] == '\n') && forall i :: p <= i < q ==> buf[i] != '\n'
      invariant forall i :: p <= i < m ==> buf[i] == s[i]
      invariant Selected(re, s) == out + Selected(re, s[p..])
    {
      NextLine(re, s, p, q);
      buf[q] := '\0';
      assert buf[p..q] == s[p..q];
      var b := Match(re, buf[p..q]);
      ghost var line := if b then s[p..q + 1] else [];
      Append(Selected(re, s), out, Selected(re, s[p..]), line, Selected(re, s[q + 1..]));
      if b {
        buf[q] := '\n';
        assert buf[p..q + 1] == line;
        out := out + buf[p..q + 1];
      }
      p := q + 1;
      q := FindNewline(buf, p, m);
    }
  }

  /** read: the next `n` bytes of the input go to the buffer from `m` on. */
  method Fill(buf: array<char>, m: nat, input: string, pos: nat, n: nat)
    requires m + n < buf.Length && pos + n <= |input|
    modifies buf
    ensures forall i :: 0 <= i < m ==> buf[i] == old(buf[i])
    ensures forall i :: m <= i < m + n ==> buf[i] == input[pos + (i - m)]
  {
    var i := 0;
    while i < n
      invariant 0 <= i <= n
      invariant forall j :: 0 <= j < m ==> buf[j] == old(buf[j])
      invariant forall j :: m <= j < m + i ==> buf[j] == input[pos + (j - m)]
    {
      buf[m + i] := input[pos + i];
      i := i + 1;
    }
  }

  /** memmove of the unfinished line to the start of the buffer. */
  method Shift(buf: array<char>, p: nat, n: nat)
    requires p + n <= buf.Length
    modifies buf
    ensures forall i :: 0 <= i < n ==> buf[i] == old(buf[p + i])
  {
    var i := 0;
    while i < n
      invariant 0 <= i <= n
      invariant forall j :: 0 <= j < i ==> buf[j] == old(buf[p + j])
      invariant forall j :: p + i <= j < p + n ==> buf[j] == old(buf[j])
    {
      buf[i] := buf[p + i];
      i := i + 1;
    }
  }

  /** A text whose first line has no end, or is too long for the buffer, gives nothing. */
  lemma {:induction false} NothingMore(re: string, s: string, m: nat)
    requires m <= |s| && (m == |s| || m == BUF - 1) && forall i :: 0 <= i < m ==> s[i] != '\n'
    ensures Selected(re, s) == []
  {
  }

  /** The first `m` bytes of the buffer are those of the text, and no newline. */
  ghost predicate BeginsWith(buf: array<char>, m: nat, s: string)
    requires m <= buf.Length
    reads buf
  {
    m <= |s| && forall i :: 0 <= i < m ==> buf[i] == s[i] && s[i] != '\n'
  }

  /** The unread part of the input and what is left in the buffer. */
  ghost predicate Buffered(buf: array<char>, m: nat, input: string, pos: nat)
    reads buf
  {
    m < buf.Length == BUF && m <= pos <= |input| && BeginsWith(buf, m, input[pos - m..])
  }

  /** One turn of the loop of grep, with `n` bytes more from the input. */
  method Turn(re: string, buf: array<char>, m: nat, input: string, pos: nat, n: nat) returns (out: string, left: nat)
    requires Buffered(buf, m, input, pos) && m + n < BUF && pos + n <= |input|
    modifies buf
    ensures left <= pos + n && Buffered(buf, left, input, pos + n)
    ensures Selected(re, input[pos - m..]) == out + Selected(re, input[pos + n - left..])
  {
    hide Selected;
    Fill(buf, m, input, pos, n);
    ghost var s := input[pos - m..];
    buf[m + n] := '\0';
    assert forall i :: 0 <= i < m + n ==> buf[i] == s[i];
    var p;
    out, p := Scan(re, buf, m + n, s);
    left := m + n - p;
    ghost var rest := s[p..];
    assert rest == input[pos + n - left..];
    assert forall i :: 0 <= i < left ==> rest[i] == s[p + i];
    Shift(buf, p, left);
    assert BeginsWith(buf, left, rest);
  }

  /** grep: whatever sizes the reads have, the output is the accepted lines of the input. */
  method GrepFile(re: string, input: string, sizes: nat -> nat) returns (out: string)
    requires '\0' !in input
    ensures out == Selected(re, input)
  {
    hide Selected;
    var buf := new char[BUF];
    var m, pos, turn := 0, 0, 0;
    out := [];
    assert input[0..] == input;
    var n := ReadCount(sizes(turn), BUF - 1 - m, |input| - pos);
    while n > 0
      invariant m <= pos && Buffered(buf, m, input, pos) && n == ReadCount(sizes(turn), BUF - 1 - m, |input| - pos)
      invariant Selected(re, input) == out + Selected(re, input[pos - m..])
      decreases |input| - pos
    {
      var more, left := Turn(re, buf, m, input, pos, n);
      Append(Selected(re, input), out, Selected(re, input[pos - m..]), more, Selected(re, input[pos + n - left..]));
      out, pos, m, turn := out + more, pos + n, left, turn + 1;
      n := ReadCount(sizes(turn), BUF - 1 - m, |input| - pos);
    }
    NothingMore(re, input[pos - m..], m);
  }
}

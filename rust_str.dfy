/** The operations of Rust's `str` that the request parser and the response
    writer rely on, over `string` (a sequence of Unicode scalar values):
    `char::is_whitespace`, `find(char)`, `split(char)`, `splitn(2, char)`,
    `lines()`, `split_whitespace()`, `find(&str)`, `starts_with(&str)`, the
    `Display` of an unsigned integer and `len()` (the UTF-8 byte length). */
module RustStr {
  import opened Wrappers

  /** Unicode's White_Space property, which `char::is_whitespace` tests. */
  predicate IsWhitespace(c: char)
    ensures c < '\U{80}' ==> (IsWhitespace(c) <==> c in "\t\n\U{B}\U{C}\r ")
  {
    ('\t' <= c <= '\r') || c == ' ' || c == '\U{85}' || c == '\U{A0}' || c == '\U{1680}'
    || ('\U{2000}' <= c <= '\U{200A}') || c == '\U{2028}' || c == '\U{2029}'
    || c == '\U{202F}' || c == '\U{205F}' || c == '\U{3000}'
  }

  /** Index of the first `c` in `s`, or `|s|` when there is none. */
  function IndexOf(s: string, c: char): (i: nat)
    ensures i <= |s|
    ensures i < |s| ==> s[i] == c
    ensures forall j :: 0 <= j < i ==> s[j] != c
  {
    if s == [] then 0
    else if s[0] == c then 0
    else 1 + IndexOf(s[1..], c)
  }

  /** `s.split(c)`: the pieces between the occurrences of `c`; never empty. */
  function Split(s: string, c: char): (pieces: seq<string>)
    ensures |pieces| >= 1
    ensures forall k :: 0 <= k < |pieces| ==> c !in pieces[k]
    decreases |s|
  {
    var i := IndexOf(s, c);
    if i == |s| then [s] else [s[..i]] + Split(s[i + 1..], c)
  }

  /** The inverse of `Split`: the pieces glued back with `c` between them. */
  function Join(pieces: seq<string>, c: char): string
    decreases |pieces|
  {
    if |pieces| == 0 then []
    else if |pieces| == 1 then pieces[0]
    else pieces[0] + [c] + Join(pieces[1..], c)
  }

  lemma {:induction false} JoinSplit(s: string, c: char)
    ensures Join(Split(s, c), c) == s
    decreases |s|
  {
    var i := IndexOf(s, c);
    if i < |s| {
      var rest := s[i + 1..];
      var pieces := Split(rest, c);
      assert Split(s, c) == [s[..i]] + pieces;
      JoinSplit(rest, c);
      assert ([s[..i]] + pieces)[1..] == pieces;
      assert Join([s[..i]] + pieces, c) == s[..i] + [c] + Join(pieces, c);
      assert s == s[..i] + [c] + rest;
    }
  }

  lemma {:induction false} SplitJoin(pieces: seq<string>, c: char)
    requires |pieces| >= 1
    requires forall k :: 0 <= k < |pieces| ==> c !in pieces[k]
    ensures Split(Join(pieces, c), c) == pieces
    decreases |pieces|
  {
    if |pieces| > 1 {
      var rest := Join(pieces[1..], c);
      assert Join(pieces, c) == pieces[0] + [c] + rest;
      SplitAtFirst(pieces[0], c, rest);
      SplitJoin(pieces[1..], c);
      assert [pieces[0]] + pieces[1..] == pieces;
    }
  }

  /** A piece without `c`, then `c`: the piece is the first of the split. */
  lemma SplitAtFirst(piece: string, c: char, rest: string)
    requires c !in piece
    ensures Split(piece + [c] + rest, c) == [piece] + Split(rest, c)
  {
    var s := piece + [c] + rest;
    assert forall j :: 0 <= j < |piece| ==> s[j] == piece[j];
    assert s[|piece|] == c;
    assert IndexOf(s, c) == |piece|;
    assert s[..|piece|] == piece;
    assert s[|piece| + 1..] == rest;
  }

  /** `s.splitn(2, c)`: the whole of `s`, or the parts before and after its
      first `c`. */
  function SplitN2(s: string, c: char): (parts: seq<string>)
    ensures 1 <= |parts| <= 2
    ensures |parts| == 1 <==> c !in s
    ensures c !in parts[0]
    ensures |parts| == 1 ==> parts[0] == s
    ensures |parts| == 2 ==> parts[0] + [c] + parts[1] == s
  {
    var i := IndexOf(s, c);
    if i == |s| then [s]
    else
      assert s == s[..i] + [c] + s[i + 1..];
      [s[..i], s[i + 1..]]
  }

  /** A line terminated by "\r\n" loses its '\r' (`lines()` does this only
      when a '\n' follows). */
  function StripCr(line: string): string {
    if |line| > 0 && line[|line| - 1] == '\r' then line[..|line| - 1] else line
  }

  /** `s.lines()`: split at '\n', drop one '\r' before each '\n', and no
      empty last line after a final '\n'. */
  function Lines(s: string): (ls: seq<string>)
    ensures |ls| == 0 <==> s == []
    ensures forall k :: 0 <= k < |ls| ==> '\n' !in ls[k]
    decreases |s|
  {
    if s == [] then []
    else
      var i := IndexOf(s, '\n');
      if i == |s| then [s] else [StripCr(s[..i])] + Lines(s[i + 1..])
  }

  /** Each line followed by "\r\n", the way a header block is written. */
  function CrlfTerminated(ls: seq<string>): string
    decreases |ls|
  {
    if ls == [] then [] else ls[0] + "\r\n" + CrlfTerminated(ls[1..])
  }

  /** A line without '\n' followed by "\r\n" is the first line, and what
      follows is read on its own. */
  lemma LinesOfCrlfLine(line: string, rest: string)
    requires '\n' !in line
    ensures Lines(line + "\r\n" + rest) == [line] + Lines(rest)
  {
    var s := line + "\r\n" + rest;
    assert s == (line + "\r") + ['\n'] + rest;
    assert s[|line| + 1] == '\n';
    assert forall j :: 0 <= j < |line| + 1 ==> s[j] == (line + "\r")[j];
    assert IndexOf(s, '\n') == |line| + 1;
    assert s[..|line| + 1] == line + "\r";
    assert StripCr(line + "\r") == line;
    assert s[|line| + 2..] == rest;
  }

  /** Reading "\r\n"-terminated lines back with `lines()` gives the lines,
      followed by the lines of whatever comes after them. */
  lemma {:induction false} LinesAfterCrlfTerminated(ls: seq<string>, rest: string)
    requires forall k :: 0 <= k < |ls| ==> '\n' !in ls[k]
    ensures Lines(CrlfTerminated(ls) + rest) == ls + Lines(rest)
    decreases |ls|
  {
    if ls == [] {
      assert CrlfTerminated(ls) + rest == rest;
    } else {
      LinesAfterCrlfTerminated(ls[1..], rest);
      LinesAfterFirstCrlfLine(ls, rest);
    }
  }

  /** The inductive step: one more "\r\n"-terminated line in front. */
  lemma LinesAfterFirstCrlfLine(ls: seq<string>, rest: string)
    requires ls != [] && '\n' !in ls[0]
    requires Lines(CrlfTerminated(ls[1..]) + rest) == ls[1..] + Lines(rest)
    ensures Lines(CrlfTerminated(ls) + rest) == ls + Lines(rest)
  {
    var head := CrlfTerminated(ls[1..]);
    CrlfLineThen(ls[0], head, rest);
    LinesOfCrlfLine(ls[0], head + rest);
    ConsThenAppend(ls[0], ls[1..], Lines(rest), ls);
  }

  lemma CrlfLineThen(line: string, head: string, rest: string)
    ensures (line + "\r\n" + head) + rest == line + "\r\n" + (head + rest)
  {
  }

  lemma ConsThenAppend<T>(x: T, xs: seq<T>, ys: seq<T>, whole: seq<T>)
    requires whole != [] && whole[0] == x && whole[1..] == xs
    ensures [x] + (xs + ys) == whole + ys
  {
    assert whole == [x] + xs;
  }

  predicate IsToken(t: string) {
    t != [] && forall k :: 0 <= k < |t| ==> !IsWhitespace(t[k])
  }

  /** Length of the run of non-whitespace characters that starts `s`. */
  function WordEnd(s: string): (n: nat)
    ensures n <= |s|
    ensures forall k :: 0 <= k < n ==> !IsWhitespace(s[k])
    ensures n < |s| ==> IsWhitespace(s[n])
  {
    if s == [] || IsWhitespace(s[0]) then 0 else 1 + WordEnd(s[1..])
  }

  /** `s.split_whitespace()`: the maximal non-whitespace runs, in order. */
  function Tokens(s: string): (ts: seq<string>)
    ensures forall k :: 0 <= k < |ts| ==> IsToken(ts[k])
    decreases |s|
  {
    if s == [] then []
    else if IsWhitespace(s[0]) then Tokens(s[1..])
    else
      var n := WordEnd(s);
      [s[..n]] + Tokens(s[n..])
  }

  lemma {:induction false} WordEndOfToken(w: string, rest: string)
    requires IsToken(w) && (rest == [] || IsWhitespace(rest[0]))
    ensures WordEnd(w + rest) == |w|
    decreases |w|
  {
    assert (w + rest)[0] == w[0];
    if |w| > 1 {
      assert (w + rest)[1..] == w[1..] + rest;
      WordEndOfToken(w[1..], rest);
    } else {
      assert (w + rest)[1..] == rest;
    }
  }

  /** A token followed by whitespace (or nothing) is the first token. */
  lemma TokensAfterToken(w: string, rest: string)
    requires IsToken(w) && (rest == [] || IsWhitespace(rest[0]))
    ensures Tokens(w + rest) == [w] + Tokens(rest)
  {
    WordEndOfToken(w, rest);
    assert (w + rest)[0] == w[0];
    assert (w + rest)[..|w|] == w && (w + rest)[|w|..] == rest;
  }

  /** The part of `rest` that stays on the current line. */
  ghost function LineRemainder(rest: string): string {
    var j := IndexOf(rest, '\n');
    if j == |rest| then rest else StripCr(rest[..j])
  }

  /** The first line of `prefix + rest`, for a `prefix` that holds no line
      break and does not end with '\r'. */
  lemma FirstLineAfter(prefix: string, rest: string)
    requires prefix != [] && '\n' !in prefix && prefix[|prefix| - 1] != '\r'
    ensures Lines(prefix + rest)[0] == prefix + LineRemainder(rest)
  {
    var s := prefix + rest;
    var j := IndexOf(rest, '\n');
    assert forall k :: 0 <= k < |prefix| ==> s[k] == prefix[k];
    assert forall k :: 0 <= k < |rest| ==> s[|prefix| + k] == rest[k];
    assert IndexOf(s, '\n') == |prefix| + j;
    if j < |rest| {
      assert s[..|prefix| + j] == prefix + rest[..j];
      if j == 0 {
        assert prefix + rest[..j] == prefix;
      } else {
        assert (prefix + rest[..j])[..|prefix| + j - 1] == prefix + rest[..j][..j - 1];
      }
    }
  }

  /** The characters of `s` that are not whitespace. */
  function NonWhitespace(s: string): string {
    if s == [] then []
    else if IsWhitespace(s[0]) then NonWhitespace(s[1..])
    else [s[0]] + NonWhitespace(s[1..])
  }

  function Concat(ts: seq<string>): string {
    if ts == [] then [] else ts[0] + Concat(ts[1..])
  }

  lemma {:induction false} NonWhitespaceAppend(a: string, b: string)
    ensures NonWhitespace(a + b) == NonWhitespace(a) + NonWhitespace(b)
    decreases |a|
  {
    if a != [] {
      assert (a + b)[0] == a[0];
      assert (a + b)[1..] == a[1..] + b;
      NonWhitespaceAppend(a[1..], b);
    } else {
      assert a + b == b;
    }
  }

  lemma {:induction false} NonWhitespaceOfWord(w: string)
    requires forall k :: 0 <= k < |w| ==> !IsWhitespace(w[k])
    ensures NonWhitespace(w) == w
    decreases |w|
  {
    if w != [] {
      NonWhitespaceOfWord(w[1..]);
    }
  }

  /** `split_whitespace` loses exactly the whitespace: the tokens, glued
      together, are the input's non-whitespace characters. */
  lemma {:induction false} TokensKeepNonWhitespace(s: string)
    ensures Concat(Tokens(s)) == NonWhitespace(s)
    decreases |s|
  {
    if s != [] {
      if IsWhitespace(s[0]) {
        TokensKeepNonWhitespace(s[1..]);
      } else {
        var n := WordEnd(s);
        assert s == s[..n] + s[n..];
        NonWhitespaceAppend(s[..n], s[n..]);
        NonWhitespaceOfWord(s[..n]);
        TokensKeepNonWhitespace(s[n..]);
        assert ([s[..n]] + Tokens(s[n..]))[1..] == Tokens(s[n..]);
      }
    }
  }

  predicate OccursAt(s: string, pat: string, i: nat) {
    i + |pat| <= |s| && s[i..i + |pat|] == pat
  }

  /** `s.find(pat)`: the index of the first occurrence of `pat`, if any. */
  function Find(s: string, pat: string): (r: Option<nat>)
    ensures r.Some? ==> OccursAt(s, pat, r.value)
    ensures forall i: nat :: i <= |s| && (r.None? || i < r.value) ==> !OccursAt(s, pat, i)
    decreases |s|
  {
    if |s| < |pat| then None
    else if s[..|pat|] == pat then Some(0)
    else
      var rest := Find(s[1..], pat);
      var r := match rest case None => None case Some(k) => Some(k + 1);
      assert forall i: nat :: 1 <= i <= |s| && (r.None? || i < r.value) ==> !OccursAt(s, pat, i) by {
        forall i: nat | 1 <= i <= |s| && (r.None? || i < r.value)
          ensures !OccursAt(s, pat, i)
        {
          OccursInTail(s, pat, i);
        }
      }
      assert r.Some? ==> OccursAt(s, pat, r.value) by {
        if r.Some? {
          OccursInTail(s, pat, r.value);
        }
      }
      r
  }

  /** An occurrence at `i` in the tail `s[1..]` is one at `i + 1` in `s`. */
  lemma OccursInTail(s: string, pat: string, i: nat)
    requires 1 <= i <= |s|
    ensures OccursAt(s[1..], pat, i - 1) <==> OccursAt(s, pat, i)
  {
    if i + |pat| <= |s| {
      assert s[1..][i - 1..i - 1 + |pat|] == s[i..i + |pat|];
    }
  }

  /** `s.starts_with(p)`. */
  predicate StartsWith(s: string, p: string)
    ensures StartsWith(s, p) <==> |p| <= |s| && s == p + s[|p|..]
  {
    |p| <= |s| && s[..|p|] == p
  }

  predicate IsDigit(c: char) {
    '0' <= c <= '9'
  }

  predicate AllDigits(d: string) {
    forall k :: 0 <= k < |d| ==> IsDigit(d[k])
  }

  function DigitChar(n: nat): (c: char)
    requires n < 10
  {
    (n + '0' as int) as char
  }

  /** `format!("{}", n)` for an unsigned integer: decimal, no leading zero. */
  function Dec(n: nat): (d: string)
    ensures |d| >= 1 && AllDigits(d)
    ensures d[0] == '0' ==> n == 0 && d == "0"
  {
    if n < 10 then [DigitChar(n)] else Dec(n / 10) + [DigitChar(n % 10)]
  }

  /** The number a string of decimal digits denotes. */
  function DecValue(d: string): nat
    requires AllDigits(d)
  {
    if d == [] then 0 else DecValue(d[..|d| - 1]) * 10 + (d[|d| - 1] as int - '0' as int)
  }

  lemma {:induction false} DecRoundTrip(n: nat)
    ensures DecValue(Dec(n)) == n
  {
    if n >= 10 {
      DecRoundTrip(n / 10);
      var d := Dec(n);
      assert d[..|d| - 1] == Dec(n / 10);
    }
  }

  /** Number of bytes the UTF-8 encoding of `c` takes. */
  function Utf8Width(c: char): (w: nat)
    ensures 1 <= w <= 4
    ensures w == 1 <==> c < '\U{80}'
  {
    if c < '\U{80}' then 1
    else if c < '\U{800}' then 2
    else if c < '\U{10000}' then 3
    else 4
  }

  /** `s.len()` on a Rust `String`: its UTF-8 length in bytes. */
  function Utf8Len(s: string): (n: nat)
    ensures |s| <= n <= 4 * |s|
    ensures n == |s| <==> forall k :: 0 <= k < |s| ==> s[k] < '\U{80}'
  {
    if s == [] then 0
    else
      var n := Utf8Width(s[0]) + Utf8Len(s[1..]);
      assert forall k :: 1 <= k < |s| ==> s[k] == s[1..][k - 1];
      n
  }
}

// The pieces of the C++ standard library that the converter's parsers lean
// on, stated on strings: decimal formatting through ostringstream,
// std::getline with a delimiter, operator>> on whitespace-separated words,
// and std::filesystem::path::extension.
module Text {

  // ---------------------------------------------------------------------
  // Decimal formatting (ostringstream << size_t / long)

  function DigitChar(d: nat): char
    requires d < 10
  {
    "0123456789"[d]
  }

  predicate IsDigit(c: char) { '0' <= c <= '9' }

  function DigitValue(c: char): nat
    requires IsDigit(c)
  {
    (c - '0') as nat
  }

  /** The decimal text of n, as `os << n` writes it. */
  function NatToString(n: nat): (s: string)
    ensures |s| > 0 && forall k :: 0 <= k < |s| ==> IsDigit(s[k])
    ensures s[0] == '0' ==> n == 0 && s == "0"
    decreases n
  {
    if n < 10 then [DigitChar(n)] else NatToString(n / 10) + [DigitChar(n % 10)]
  }

  /** Reads a non-empty string of digits back as a number. */
  function DecimalValue(s: string): nat
    requires forall k :: 0 <= k < |s| ==> IsDigit(s[k])
  {
    if |s| == 0 then 0 else 10 * DecimalValue(s[..|s| - 1]) + DigitValue(s[|s| - 1])
  }

  lemma {:induction false} DecimalRoundTrip(n: nat)
    ensures DecimalValue(NatToString(n)) == n
    decreases n
  {
    var s := NatToString(n);
    if n >= 10 {
      DecimalRoundTrip(n / 10);
      assert s[..|s| - 1] == NatToString(n / 10);
    }
  }

  /** The decimal text of a signed value, as `os << (long)v` writes it. */
  function IntToString(v: int): (s: string)
    ensures v < 0 <==> (|s| > 0 && s[0] == '-')
  {
    if v < 0 then "-" + NatToString(-v) else NatToString(v)
  }

  // ---------------------------------------------------------------------
  // std::getline(stream, token, delim) repeated until it fails

  /** All delimiter-separated pieces of s, including empty ones. */
  function Pieces(s: string, d: char): (r: seq<string>)
    ensures |r| >= 1
    decreases |s|
  {
    if |s| == 0 then [""]
    else if s[0] == d then [""] + Pieces(s[1..], d)
    else
      var rest := Pieces(s[1..], d);
      [[s[0]] + rest[0]] + rest[1..]
  }

  function Join(ps: seq<string>, d: char): string
    requires |ps| >= 1
  {
    if |ps| == 1 then ps[0] else ps[0] + [d] + Join(ps[1..], d)
  }

  lemma {:induction false} PiecesJoin(s: string, d: char)
    ensures Join(Pieces(s, d), d) == s
    ensures forall k :: 0 <= k < |Pieces(s, d)| ==> d !in Pieces(s, d)[k]
    decreases |s|
  {
    if |s| > 0 {
      PiecesJoin(s[1..], d);
      var rest := Pieces(s[1..], d);
      if s[0] == d {
        assert s == [d] + s[1..];
      } else {
        var r := Pieces(s, d);
        assert r[1..] == rest[1..];
        if |rest| == 1 {
          assert s == [s[0]] + rest[0];
        } else {
          assert Join(rest, d) == rest[0] + [d] + Join(rest[1..], d);
          assert s == [s[0]] + s[1..];
        }
      }
    }
  }

  /**
   * The tokens a loop `while (getline(ss, tok, d))` sees: the pieces of s,
   * except that a last piece that is empty is never delivered (getline
   * fails when it reaches the end without extracting anything).
   */
  function GetlineTokens(s: string, d: char): (r: seq<string>)
  {
    var ps := Pieces(s, d);
    if ps[|ps| - 1] == "" then ps[..|ps| - 1] else ps
  }

  lemma GetlineTokensSplit(s: string, d: char)
    ensures s == "" ==> GetlineTokens(s, d) == []
    ensures forall k :: 0 <= k < |GetlineTokens(s, d)| ==> d !in GetlineTokens(s, d)[k]
    ensures |GetlineTokens(s, d)| >= 1 ==>
      Join(GetlineTokens(s, d), d) == s || Join(GetlineTokens(s, d), d) + [d] == s
  {
    PiecesJoin(s, d);
    var ps := Pieces(s, d);
    if ps[|ps| - 1] == "" && |ps| >= 2 {
      JoinDropEmptyLast(ps, d);
    }
  }

  lemma {:induction false} JoinDropEmptyLast(ps: seq<string>, d: char)
    requires |ps| >= 2 && ps[|ps| - 1] == ""
    ensures Join(ps[..|ps| - 1], d) + [d] == Join(ps, d)
  {
    if |ps| > 2 {
      JoinDropEmptyLast(ps[1..], d);
      assert ps[1..][..|ps| - 2] == ps[..|ps| - 1][1..];
    }
  }

  /** A delimiter-free string a followed by the delimiter splits off as one piece. */
  lemma {:induction false} PiecesCons(a: string, d: char, rest: string)
    requires d !in a
    ensures Pieces(a + [d] + rest, d) == [a] + Pieces(rest, d)
    decreases |a|
  {
    var s := a + [d] + rest;
    if |a| == 0 {
      assert s == [d] + rest;
    } else {
      PiecesCons(a[1..], d, rest);
      assert s[0] == a[0] && s[1..] == a[1..] + [d] + rest;
      var r := Pieces(s[1..], d);
      assert r[0] == a[1..] && r[1..] == Pieces(rest, d);
      assert [s[0]] + r[0] == a;
    }
  }

  /** A delimiter-free string is a single piece. */
  lemma {:induction false} PiecesOfPlain(a: string, d: char)
    requires d !in a
    ensures Pieces(a, d) == [a]
    decreases |a|
  {
    if |a| > 0 {
      PiecesOfPlain(a[1..], d);
      assert a == [a[0]] + a[1..];
    }
  }

  // ---------------------------------------------------------------------
  // operator>>(istream, string): whitespace-separated words

  predicate IsSpace(c: char)
  {
    c == ' ' || c == '\t' || c == '\n' || c == '\r' || c == '\U{B}' || c == '\U{C}'
  }

  /** Length of the leading run of characters that are not whitespace. */
  function WordLength(s: string): (k: nat)
    ensures k <= |s|
    ensures forall j :: 0 <= j < k ==> !IsSpace(s[j])
    ensures k < |s| ==> IsSpace(s[k])
  {
    if |s| == 0 || IsSpace(s[0]) then 0 else 1 + WordLength(s[1..])
  }

  /** The words successive `is >> word` extractions deliver. */
  function Words(s: string): (ws: seq<string>)
    decreases |s|
  {
    if |s| == 0 then []
    else if IsSpace(s[0]) then Words(s[1..])
    else
      var k := WordLength(s);
      [s[..k]] + Words(s[k..])
  }

  /** The characters of s that are not whitespace, in order. */
  function NonSpace(s: string): string
  {
    if |s| == 0 then [] else (if IsSpace(s[0]) then [] else [s[0]]) + NonSpace(s[1..])
  }

  function Concat(ws: seq<string>): string
  {
    if |ws| == 0 then [] else ws[0] + Concat(ws[1..])
  }

  lemma {:induction false} NonSpaceAppend(a: string, b: string)
    ensures NonSpace(a + b) == NonSpace(a) + NonSpace(b)
  {
    if |a| > 0 {
      assert (a + b)[1..] == a[1..] + b;
      NonSpaceAppend(a[1..], b);
    } else {
      assert a + b == b;
    }
  }

  lemma {:induction false} NonSpaceOfWord(w: string)
    requires forall j :: 0 <= j < |w| ==> !IsSpace(w[j])
    ensures NonSpace(w) == w
  {
    if |w| > 0 {
      NonSpaceOfWord(w[1..]);
    }
  }

  /** Words are non-empty, hold no whitespace, and lose nothing but whitespace. */
  lemma {:induction false} WordsSplit(s: string)
    ensures forall k :: 0 <= k < |Words(s)| ==>
      |Words(s)[k]| > 0 && forall j :: 0 <= j < |Words(s)[k]| ==> !IsSpace(Words(s)[k][j])
    ensures Concat(Words(s)) == NonSpace(s)
    decreases |s|
  {
    if |s| > 0 {
      if IsSpace(s[0]) {
        WordsSplit(s[1..]);
      } else {
        var k := WordLength(s);
        WordsSplit(s[k..]);
        assert s == s[..k] + s[k..];
        NonSpaceAppend(s[..k], s[k..]);
        NonSpaceOfWord(s[..k]);
      }
    }
  }

  // ---------------------------------------------------------------------
  // Comments and file-name extensions

  /** The line with everything from the first '#' on erased. */
  function BeforeHash(line: string): (r: string)
    ensures '#' !in r
    ensures r <= line
    ensures '#' !in line ==> r == line
  {
    if |line| == 0 || line[0] == '#' then [] else [line[0]] + BeforeHash(line[1..])
  }

  /** Index just after the last '/' (0 when there is none). */
  function FileNameStart(p: string): (k: nat)
    ensures k <= |p|
    ensures '/' !in p[k..]
    ensures k > 0 ==> p[k - 1] == '/'
  {
    if |p| == 0 then 0
    else if p[|p| - 1] == '/' then |p|
    else
      var k := FileNameStart(p[..|p| - 1]);
      assert p[k..] == p[..|p| - 1][k..] + [p[|p| - 1]];
      k
  }

  /** Index of the last occurrence of c in s, or -1. */
  function LastIndexOf(s: string, c: char): (k: int)
    ensures -1 <= k < |s|
    ensures k >= 0 ==> s[k] == c
    ensures forall j :: k < j < |s| ==> s[j] != c
  {
    if |s| == 0 then -1
    else if s[|s| - 1] == c then |s| - 1
    else LastIndexOf(s[..|s| - 1], c)
  }

  /**
   * std::filesystem::path::extension on a POSIX path: the file name from its
   * last period on, unless the file name is "." or "..", has no period, or
   * its only period is its first character.
   */
  function Extension(p: string): (e: string)
    ensures e != "" ==> e[0] == '.' && '/' !in e && '.' !in e[1..]
    ensures e != "" ==> |e| < |p| && p[|p| - |e|..] == e
  {
    var name := p[FileNameStart(p)..];
    var k := LastIndexOf(name, '.');
    if name == "." || name == ".." || k <= 0 then "" else name[k..]
  }
}

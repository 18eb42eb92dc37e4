/**
 * String helpers: the ones the calculator's text assembly relies on
 * (JavaScript's `trim`, `Array.prototype.join` and the decimal rendering
 * of a whole number that a template literal such as `${months}` produces),
 * and splitting at a separator character, which the calculator itself
 * never calls but the model uses to read rendered text back into words.
 */
module Text {

  /** The only whitespace character the calculator ever writes. */
  const Space: char := ' '

  /** A word: at least one character and no space inside. */
  predicate IsWord(w: string) {
    |w| > 0 && Space !in w
  }

  predicate AllWords(ws: seq<string>) {
    forall i :: 0 <= i < |ws| ==> IsWord(ws[i])
  }

  /** True when `s` neither starts nor ends with a space. */
  predicate Unpadded(s: string) {
    s == [] || (s[0] != Space && s[|s| - 1] != Space)
  }

  /** Drops the leading spaces of `s`. */
  function TrimStart(s: string): (r: string)
    ensures |r| <= |s| && r == s[|s| - |r|..]
    ensures forall i :: 0 <= i < |s| - |r| ==> s[i] == Space
    ensures r == [] || r[0] != Space
  {
    if |s| > 0 && s[0] == Space then TrimStart(s[1..]) else s
  }

  /** Drops the trailing spaces of `s`. */
  function TrimEnd(s: string): (r: string)
    ensures |r| <= |s| && r == s[..|r|]
    ensures forall i :: |r| <= i < |s| ==> s[i] == Space
    ensures r == [] || r[|r| - 1] != Space
  {
    if |s| > 0 && s[|s| - 1] == Space then TrimEnd(s[..|s| - 1]) else s
  }

  /** `r` is the stretch of `s` starting at `a`, with only spaces before and after it in `s`. */
  predicate Inner(s: string, a: nat, r: string) {
    a + |r| <= |s| && r == s[a..a + |r|]
    && (forall i :: 0 <= i < a ==> s[i] == Space)
    && (forall i :: a + |r| <= i < |s| ==> s[i] == Space)
  }

  /**
   * JavaScript's `String.prototype.trim` on strings whose only whitespace
   * is the space: the result is the stretch of `s` left after removing its
   * leading and trailing spaces, so it starts and ends with a non-space.
   */
  function Trim(s: string): (r: string)
    ensures |r| <= |s| && Unpadded(r)
    ensures exists a :: Inner(s, a, r)
  {
    var t := TrimStart(s);
    var r := TrimEnd(t);
    var a := |s| - |t|;
    assert forall i :: a + |r| <= i < |s| ==> s[i] == t[i - a];
    assert Inner(s, a, r);
    r
  }

  lemma TrimUnpadded(s: string)
    requires Unpadded(s)
    ensures Trim(s) == s
  {
  }

  /** Trimming a string that carries one extra trailing space removes exactly that space. */
  lemma TrimTrailingSpace(s: string)
    requires s != [] && Unpadded(s)
    ensures Trim(s + [Space]) == s
  {
    var t := s + [Space];
    assert TrimStart(t) == t;
    assert t[..|t| - 1] == s;
    assert TrimEnd(t) == TrimEnd(s) == s;
  }

  /**
   * `Array.prototype.join(sep)`: the elements in order with `sep` between
   * neighbours. The ensures exposes the one-element case, which the
   * proofs about the hundreds text rely on without unfolding `Join`.
   */
  function Join(ws: seq<string>, sep: string): (r: string)
    ensures |ws| == 1 ==> r == ws[0]
  {
    if |ws| == 0 then "" else if |ws| == 1 then ws[0] else ws[0] + sep + Join(ws[1..], sep)
  }

  lemma {:induction false} JoinAppend(a: seq<string>, b: seq<string>, sep: string)
    requires a != [] && b != []
    ensures Join(a + b, sep) == Join(a, sep) + sep + Join(b, sep)
  {
    if |a| == 1 {
      assert (a + b)[1..] == b;
    } else {
      assert (a + b)[1..] == a[1..] + b;
      JoinAppend(a[1..], b, sep);
    }
  }

  /** Words joined by single spaces give a non-empty string without a space at either end. */
  lemma {:induction false} JoinWordsUnpadded(ws: seq<string>)
    requires ws != [] && AllWords(ws)
    ensures |Join(ws, [Space])| > 0 && Unpadded(Join(ws, [Space]))
  {
    if |ws| > 1 {
      JoinWordsUnpadded(ws[1..]);
    }
  }

  /** The index of the first `c` in `s`, or `|s|` when there is none. */
  function IndexOf(s: string, c: char): (i: nat)
    ensures i <= |s|
    ensures i < |s| ==> s[i] == c
    ensures forall j :: 0 <= j < i ==> s[j] != c
  {
    if |s| == 0 then 0 else if s[0] == c then 0 else 1 + IndexOf(s[1..], c)
  }

  /** `String.prototype.split(c)` for a one-character separator. */
  function Split(s: string, c: char): (ws: seq<string>)
    ensures |ws| > 0
    decreases |s|
  {
    var i := IndexOf(s, c);
    if i == |s| then [s] else [s[..i]] + Split(s[i + 1..], c)
  }

  /** Splitting undoes joining, as long as no element holds the separator. */
  lemma {:induction false} SplitJoin(ws: seq<string>, c: char)
    requires ws != []
    requires forall i :: 0 <= i < |ws| ==> c !in ws[i]
    ensures Split(Join(ws, [c]), c) == ws
  {
    var s := Join(ws, [c]);
    if |ws| == 1 {
      assert IndexOf(s, c) == |s|;
    } else {
      var rest := Join(ws[1..], [c]);
      assert s == ws[0] + [c] + rest;
      var i := IndexOf(s, c);
      assert s[|ws[0]|] == c;
      assert i == |ws[0]|;
      assert s[..i] == ws[0];
      assert s[i + 1..] == rest;
      SplitJoin(ws[1..], c);
      assert [ws[0]] + ws[1..] == ws;
    }
  }

  /** Digit characters. */
  function DigitChar(d: nat): (c: char)
    requires d < 10
    ensures '0' <= c <= '9'
  {
    "0123456789"[d]
  }

  function DigitValue(c: char): nat {
    if '0' <= c <= '9' then (c as int) - ('0' as int) else 0
  }

  /** What a JavaScript template literal prints for a non-negative whole number. */
  function Decimal(n: nat): (s: string)
    ensures |s| > 0
  {
    if n < 10 then [DigitChar(n)] else Decimal(n / 10) + [DigitChar(n % 10)]
  }

  /** Reads a string of decimal digits back as a number. */
  function DecimalValue(s: string): nat {
    if s == [] then 0 else 10 * DecimalValue(s[..|s| - 1]) + DigitValue(s[|s| - 1])
  }

  predicate AllDigits(s: string) {
    forall i :: 0 <= i < |s| ==> '0' <= s[i] <= '9'
  }

  lemma DigitRoundTrip(d: nat)
    requires d < 10
    ensures DigitValue(DigitChar(d)) == d
  {
    assert "0123456789"[d] == ('0' as int + d) as char;
  }

  /**
   * The decimal rendering is digits only, has no leading zero, and reads
   * back as the number it renders.
   */
  lemma {:induction false} DecimalRoundTrip(n: nat)
    ensures AllDigits(Decimal(n))
    ensures n > 0 ==> Decimal(n)[0] != '0'
    ensures DecimalValue(Decimal(n)) == n
  {
    DigitRoundTrip(n % 10);
    if n >= 10 {
      DecimalRoundTrip(n / 10);
      var s := Decimal(n);
      assert s[..|s| - 1] == Decimal(n / 10);
    } else {
      assert n > 0 ==> DigitChar(n) != '0';
    }
  }
}

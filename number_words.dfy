/**
 * The calculator's number-to-words renderer (`getNumberToWords` and its
 * inner `convertLessThanOneThousand`): a whole amount is split into Crore
 * (10^7), Lakh (10^5), Thousand and a remainder below one thousand, and
 * every non-zero group is spelled from three word tables.
 *
 * The renderer works on strings: each piece is appended with a trailing
 * space and the whole is trimmed at the end. Beside it stands a reference
 * spelling as a list of words (`GroupWords`, `WordList`) and an evaluator
 * that reads such a list back as a number (`Evaluate`). The lemmas show
 * that the rendered string is exactly the reference words joined by
 * single spaces, and that reading it back gives the amount again for
 * every amount below 10^10.
 */
module NumberWords {
  import opened Text

  const Ones: seq<string> :=
    ["", "One", "Two", "Three", "Four", "Five", "Six", "Seven", "Eight", "Nine"]
  const Tens: seq<string> :=
    ["", "", "Twenty", "Thirty", "Forty", "Fifty", "Sixty", "Seventy", "Eighty", "Ninety"]
  const Teens: seq<string> :=
    ["Ten", "Eleven", "Twelve", "Thirteen", "Fourteen", "Fifteen", "Sixteen", "Seventeen", "Eighteen", "Nineteen"]

  const Crore: nat := 10000000
  const Lakh: nat := 100000
  const Thousand: nat := 1000

  /**
   * `ones[i]` as JavaScript reads it: an index past the table yields
   * `undefined`, which string concatenation renders as "undefined".
   */
  function OnesAt(i: nat): string {
    if i < |Ones| then Ones[i] else "undefined"
  }

  // ---------------------------------------------------------------------
  // The renderer, string by string
  // ---------------------------------------------------------------------

  /**
   * `convertLessThanOneThousand(n)`: the hundreds digit and "Hundred",
   * "and" when something follows, then the tens and ones. A count of 1000
   * or more (only the crore count can be that large) reads the hundreds
   * digit past the end of `Ones`.
   */
  function ConvertBelowThousand(n: nat): string {
    if n == 0 then ""
    else
      var head := if n >= 100 then OnesAt(n / 100) + " Hundred " + (if n % 100 > 0 then "and " else "") else "";
      var m := if n >= 100 then n % 100 else n;
      Trim(head + TensAndOnesText(m))
  }

  /** The tens and ones of `convertLessThanOneThousand`, appended after the hundreds. */
  function TensAndOnesText(m: nat): string
    requires m < 100
  {
    if m >= 20 then Tens[m / 10] + (if m % 10 > 0 then " " + Ones[m % 10] else "")
    else if m >= 10 then Teens[m - 10]
    else if m > 0 then Ones[m]
    else ""
  }

  /** The four group counts of a whole amount, in the order the renderer takes them. */
  datatype Groups = Groups(crore: nat, lakh: nat, thousand: nat, rest: nat)

  /** Successive floor divisions and remainders by 10^7, 10^5 and 10^3. */
  function Decompose(n: nat): (g: Groups)
    ensures g.crore * Crore + g.lakh * Lakh + g.thousand * Thousand + g.rest == n
    ensures g.lakh < 100 && g.thousand < 100 && g.rest < 1000
    ensures n < 10000000000 ==> g.crore < 1000
  {
    var afterCrore := n % Crore;
    var afterLakh := afterCrore % Lakh;
    Groups(n / Crore, afterCrore / Lakh, afterLakh / Thousand, afterLakh % Thousand)
  }

  /** The `result` string `getNumberToWords` assembles, group by group, before its final trim. */
  function Assembled(n: nat): string {
    AssembledGroups(Decompose(n))
  }

  /** The pieces appended to `result`: each non-zero group with its scale word and a trailing space, then the remainder. */
  function AssembledGroups(g: Groups): string {
    Piece(g.crore, " Crore ") + Piece(g.lakh, " Lakh ") + Piece(g.thousand, " Thousand ") + Piece(g.rest, "")
  }

  /** What one `if (count > 0) result += ...` step appends: the group's text and its suffix, or nothing. */
  function Piece(k: nat, suffix: string): string {
    if k > 0 then ConvertBelowThousand(k) + suffix else ""
  }

  /** The body of `getNumberToWords` after the amount has been floored. */
  function SpellWhole(n: nat): string {
    Trim(Assembled(n))
  }

  /**
   * `getNumberToWords(number)`: zero reads "Zero"; anything else is
   * floored and spelled. A negative amount, or one strictly between 0 and
   * 1, has no non-zero group and comes out empty.
   */
  function NumberToWords(x: real): string {
    if x == 0.0 then "Zero"
    else if x.Floor < 0 then ""
    else SpellWhole(x.Floor)
  }

  // ---------------------------------------------------------------------
  // The reference spelling as a list of words
  // ---------------------------------------------------------------------

  /** The words of a count below one hundred. */
  function TailWords(m: nat): seq<string>
    requires m < 100
  {
    if m >= 20 then [Tens[m / 10]] + (if m % 10 > 0 then [Ones[m % 10]] else [])
    else if m >= 10 then [Teens[m - 10]]
    else if m > 0 then [Ones[m]]
    else []
  }

  /** The words of one group count: "<digit> Hundred", "and" when more follows, then the tail. */
  function GroupWords(k: nat): seq<string> {
    if k >= 100 then [OnesAt(k / 100), "Hundred"] + (if k % 100 > 0 then ["and"] else []) + TailWords(k % 100)
    else TailWords(k)
  }

  /** A group followed by its scale word, or nothing when the count is zero. */
  function Scaled(k: nat, scale: string): seq<string> {
    if k > 0 then GroupWords(k) + [scale] else []
  }

  /** The reference spelling of a whole amount: Crore, Lakh, Thousand, then the remainder. */
  function WordList(n: nat): seq<string> {
    var g := Decompose(n);
    Scaled(g.crore, "Crore") + Scaled(g.lakh, "Lakh") + Scaled(g.thousand, "Thousand") + GroupWords(g.rest)
  }

  // ---------------------------------------------------------------------
  // Reading a spelling back
  // ---------------------------------------------------------------------

  /** The number a word of the vocabulary stands for; any other word counts as 0. */
  function WordValue(w: string): nat {
    if w == "One" then 1
    else if w == "Two" then 2
    else if w == "Three" then 3
    else if w == "Four" then 4
    else if w == "Five" then 5
    else if w == "Six" then 6
    else if w == "Seven" then 7
    else if w == "Eight" then 8
    else if w == "Nine" then 9
    else if w == "Ten" then 10
    else if w == "Eleven" then 11
    else if w == "Twelve" then 12
    else if w == "Thirteen" then 13
    else if w == "Fourteen" then 14
    else if w == "Fifteen" then 15
    else if w == "Sixteen" then 16
    else if w == "Seventeen" then 17
    else if w == "Eighteen" then 18
    else if w == "Nineteen" then 19
    else if w == "Twenty" then 20
    else if w == "Thirty" then 30
    else if w == "Forty" then 40
    else if w == "Fifty" then 50
    else if w == "Sixty" then 60
    else if w == "Seventy" then 70
    else if w == "Eighty" then 80
    else if w == "Ninety" then 90
    else 0
  }

  /** The running state of a left-to-right reading: finished groups, and the group in progress. */
  datatype Tally = Tally(total: nat, current: nat)

  function Step(t: Tally, w: string): Tally {
    if w == "Crore" then Tally(t.total + t.current * Crore, 0)
    else if w == "Lakh" then Tally(t.total + t.current * Lakh, 0)
    else if w == "Thousand" then Tally(t.total + t.current * Thousand, 0)
    else if w == "Hundred" then Tally(t.total, t.current * 100)
    else Tally(t.total, t.current + WordValue(w))
  }

  function Run(ws: seq<string>, t: Tally): Tally {
    if ws == [] then t else Run(ws[1..], Step(t, ws[0]))
  }

  /** The amount a list of words spells. */
  function Evaluate(ws: seq<string>): nat {
    var t := Run(ws, Tally(0, 0));
    t.total + t.current
  }

  /** The amount a rendered string spells: split at spaces, then evaluate. */
  function ParseWords(s: string): nat {
    Evaluate(Split(s, Space))
  }

  // ---------------------------------------------------------------------
  // Facts about the vocabulary
  // ---------------------------------------------------------------------

  predicate IsMarker(w: string) {
    w == "Crore" || w == "Lakh" || w == "Thousand" || w == "Hundred"
  }

  /** A table word is a word, is neither a scale word nor "Hundred" nor "and", and reads as its value. */
  predicate Denotes(w: string, v: nat) {
    IsWord(w) && !IsMarker(w) && w != "and" && WordValue(w) == v
  }

  lemma OnesWord(i: nat)
    requires 1 <= i < 10
    ensures Denotes(Ones[i], i)
  {
  }

  lemma TeensWord(i: nat)
    requires i < 10
    ensures Denotes(Teens[i], 10 + i)
  {
  }

  lemma TensWord(i: nat)
    requires 2 <= i < 10
    ensures Denotes(Tens[i], 10 * i)
  {
  }

  lemma LinkWords()
    ensures IsWord("Hundred") && IsWord("and") && !IsMarker("and") && WordValue("and") == 0
    ensures IsWord("Crore") && IsWord("Lakh") && IsWord("Thousand") && IsWord("undefined")
  {
  }

  // ---------------------------------------------------------------------
  // The rendered string is the reference words joined by single spaces
  // ---------------------------------------------------------------------

  lemma TailWordsAreWords(m: nat)
    requires m < 100
    ensures AllWords(TailWords(m)) && (m > 0 <==> TailWords(m) != [])
    ensures forall i :: 0 <= i < |TailWords(m)| ==> !IsMarker(TailWords(m)[i]) && TailWords(m)[i] != "and"
  {
    if m >= 20 {
      TensWord(m / 10);
      if m % 10 > 0 { OnesWord(m % 10); }
    } else if m >= 10 {
      TeensWord(m - 10);
    } else if m > 0 {
      OnesWord(m);
    }
  }

  lemma GroupWordsAreWords(k: nat)
    ensures AllWords(GroupWords(k)) && (k > 0 <==> GroupWords(k) != [])
  {
    LinkWords();
    if k >= 100 {
      TailWordsAreWords(k % 100);
      if k / 100 < 10 { OnesWord(k / 100); }
    } else {
      TailWordsAreWords(k);
    }
  }

  lemma TensAndOnesJoin(m: nat)
    requires m < 100
    ensures TensAndOnesText(m) == Join(TailWords(m), [Space])
  {
    if m >= 20 && m % 10 > 0 {
      assert TailWords(m) == [Tens[m / 10], Ones[m % 10]];
      assert [Tens[m / 10], Ones[m % 10]][1..] == [Ones[m % 10]];
    }
  }

  lemma ConvertBelowHundred(k: nat)
    requires 0 < k < 100
    ensures ConvertBelowThousand(k) == Join(GroupWords(k), [Space])
  {
    TailWordsAreWords(k);
    TensAndOnesJoin(k);
    JoinWordsUnpadded(TailWords(k));
    assert ConvertBelowThousand(k) == Trim("" + TensAndOnesText(k));
    assert "" + TensAndOnesText(k) == TensAndOnesText(k);
    TrimUnpadded(TensAndOnesText(k));
  }

  /** "<x> Hundred " trimmed is the words `x`, "Hundred" joined by a space. */
  lemma HundredText(x: string)
    requires IsWord(x)
    ensures Trim(x + " Hundred ") == Join([x, "Hundred"], [Space])
  {
    var hw := [x, "Hundred"];
    assert Join(hw, [Space]) == x + " Hundred" by {
      assert hw[1..] == ["Hundred"];
    }
    assert x + " Hundred " == Join(hw, [Space]) + [Space];
    JoinWordsUnpadded(hw);
    TrimTrailingSpace(Join(hw, [Space]));
  }

  lemma HundredAndSpacing(x: string, j: string)
    ensures x + " Hundred " + "and " + j == (x + " Hundred and") + [Space] + j
  {
  }

  /** "<x> Hundred and <tail words>" trimmed is those words joined by single spaces. */
  lemma HundredAndText(x: string, t: seq<string>)
    requires IsWord(x) && t != [] && AllWords(t)
    ensures Trim(x + " Hundred " + "and " + Join(t, [Space])) == Join([x, "Hundred", "and"] + t, [Space])
  {
    var hw := [x, "Hundred", "and"];
    var j := Join(t, [Space]);
    var whole := Join(hw + t, [Space]);
    assert whole == (x + " Hundred and") + [Space] + j by {
      assert Join(hw, [Space]) == x + " Hundred and" by {
        assert hw[1..] == ["Hundred", "and"];
        assert hw[1..][1..] == ["and"];
      }
      JoinAppend(hw, t, [Space]);
    }
    assert x + " Hundred " + "and " + j == whole by {
      HundredAndSpacing(x, j);
    }
    assert Unpadded(whole) by {
      LinkWords();
      AllWordsAppend(hw, t);
      JoinWordsUnpadded(hw + t);
    }
    TrimUnpadded(whole);
  }

  lemma ConvertRoundHundreds(k: nat)
    requires k >= 100 && k % 100 == 0
    ensures ConvertBelowThousand(k) == Join(GroupWords(k), [Space])
  {
    var x := OnesAt(k / 100);
    assert ConvertBelowThousand(k) == Trim(x + " Hundred " + "" + TensAndOnesText(0));
    assert x + " Hundred " + "" + TensAndOnesText(0) == x + " Hundred ";
    assert GroupWords(k) == [x, "Hundred"];
    LinkWords();
    if k / 100 < 10 { OnesWord(k / 100); }
    HundredText(x);
  }

  lemma ConvertHundredsAnd(k: nat)
    requires k >= 100 && k % 100 > 0
    ensures ConvertBelowThousand(k) == Join(GroupWords(k), [Space])
  {
    var x := OnesAt(k / 100);
    var m := k % 100;
    var t := TailWords(m);
    assert ConvertBelowThousand(k) == Trim(x + " Hundred " + "and " + TensAndOnesText(m));
    TensAndOnesJoin(m);
    assert GroupWords(k) == [x, "Hundred", "and"] + t;
    TailWordsAreWords(m);
    LinkWords();
    if k / 100 < 10 { OnesWord(k / 100); }
    HundredAndText(x, t);
  }

  /** `convertLessThanOneThousand` returns the words of its group joined by single spaces. */
  lemma ConvertSpellsGroup(k: nat)
    ensures ConvertBelowThousand(k) == Join(GroupWords(k), [Space])
  {
    if 0 < k < 100 {
      ConvertBelowHundred(k);
    } else if k >= 100 && k % 100 == 0 {
      ConvertRoundHundreds(k);
    } else if k >= 100 {
      ConvertHundredsAnd(k);
    }
  }

  /** The words of a hundreds group joined by spaces: "<x> Hundred", then " and " and the tail when there is one. */
  lemma HundredJoin(x: string, t: seq<string>)
    ensures Join([x, "Hundred"], [Space]) == x + " Hundred"
    ensures t != [] ==> Join([x, "Hundred", "and"] + t, [Space]) == x + " Hundred" + (" and " + Join(t, [Space]))
  {
    assert [x, "Hundred"][1..] == ["Hundred"];
    if t != [] {
      var hw := [x, "Hundred", "and"];
      var j := Join(t, [Space]);
      assert Join(hw, [Space]) == x + " Hundred and" by {
        assert hw[1..] == ["Hundred", "and"];
        assert hw[1..][1..] == ["and"];
      }
      JoinAppend(hw, t, [Space]);
      assert (x + " Hundred and") + [Space] + j == x + " Hundred" + (" and " + j);
    }
  }

  /** The reference words of a group below one hundred, joined by spaces, case by case. */
  lemma TailWordsCases(k: nat)
    requires 0 < k < 100
    ensures k < 10 ==> Join(GroupWords(k), [Space]) == Ones[k]
    ensures 10 <= k < 20 ==> Join(GroupWords(k), [Space]) == Teens[k - 10]
    ensures 20 <= k && k % 10 == 0 ==> Join(GroupWords(k), [Space]) == Tens[k / 10]
    ensures 20 <= k && k % 10 > 0 ==> Join(GroupWords(k), [Space]) == Tens[k / 10] + " " + Ones[k % 10]
  {
    if 20 <= k && k % 10 > 0 {
      assert GroupWords(k) == [Tens[k / 10], Ones[k % 10]];
      assert [Tens[k / 10], Ones[k % 10]][1..] == [Ones[k % 10]];
    }
  }

  /** The reference words of a group of one hundred or more, joined by spaces. */
  lemma HundredsWordsCases(k: nat)
    requires k >= 100
    ensures k % 100 == 0 ==> Join(GroupWords(k), [Space]) == OnesAt(k / 100) + " Hundred"
    ensures k % 100 > 0 ==>
      Join(GroupWords(k), [Space]) == OnesAt(k / 100) + " Hundred" + (" and " + Join(GroupWords(k % 100), [Space]))
  {
    var x := OnesAt(k / 100);
    var m := k % 100;
    var t := TailWords(m);
    HundredJoin(x, t);
    if m > 0 {
      TailWordsAreWords(m);
      assert GroupWords(k) == [x, "Hundred", "and"] + t;
    } else {
      assert GroupWords(k) == [x, "Hundred"];
    }
  }

  /**
   * `convertLessThanOneThousand` case by case: nothing for 0, a ones word
   * below 10, a teens word from 10 to 19, from 20 to 99 a tens word
   * followed by a ones word only when the last digit is not 0, and from
   * 100 on "<digit> Hundred", then " and " and the spelling of the last
   * two digits when they are not both 0.
   */
  lemma ConvertCases(k: nat)
    ensures k == 0 ==> ConvertBelowThousand(k) == ""
    ensures 0 < k < 10 ==> ConvertBelowThousand(k) == Ones[k]
    ensures 10 <= k < 20 ==> ConvertBelowThousand(k) == Teens[k - 10]
    ensures 20 <= k < 100 && k % 10 == 0 ==> ConvertBelowThousand(k) == Tens[k / 10]
    ensures 20 <= k < 100 && k % 10 > 0 ==> ConvertBelowThousand(k) == Tens[k / 10] + " " + Ones[k % 10]
    ensures k >= 100 && k % 100 == 0 ==> ConvertBelowThousand(k) == OnesAt(k / 100) + " Hundred"
    ensures k >= 100 && k % 100 > 0 ==>
      ConvertBelowThousand(k) == OnesAt(k / 100) + " Hundred" + (" and " + ConvertBelowThousand(k % 100))
  {
    ConvertSpellsGroup(k);
    if k >= 100 {
      ConvertSpellsGroup(k % 100);
      HundredsWordsCases(k);
    } else if k > 0 {
      TailWordsCases(k);
    }
  }

  /** Which of the marker words "Hundred" and "and" the words of a group contain. */
  lemma GroupWordsMarkers(k: nat)
    ensures "Hundred" in GroupWords(k) <==> k >= 100
    ensures "and" in GroupWords(k) <==> k >= 100 && k % 100 > 0
  {
    if k >= 100 {
      var x := OnesAt(k / 100);
      var m := k % 100;
      var t := TailWords(m);
      assert x != "Hundred" && x != "and" by {
        if k / 100 < 10 { OnesWord(k / 100); }
      }
      TailWordsAreWords(m);
      assert "Hundred" !in t && "and" !in t;
      if m > 0 {
        assert GroupWords(k) == [x, "Hundred", "and"] + t;
      } else {
        assert GroupWords(k) == [x, "Hundred"];
      }
    } else {
      TailWordsAreWords(k);
    }
  }

  /** The space-separated words of a non-zero group's text are its reference words. */
  lemma ConvertSplits(k: nat)
    requires k > 0
    ensures Split(ConvertBelowThousand(k), Space) == GroupWords(k)
  {
    ConvertSpellsGroup(k);
    GroupWordsAreWords(k);
    SplitJoin(GroupWords(k), Space);
  }

  /**
   * Among the words of `convertLessThanOneThousand(k)`, "Hundred" appears
   * exactly when k >= 100, and "and" exactly when moreover k % 100 > 0.
   */
  lemma ConvertMarkers(k: nat)
    ensures "Hundred" in Split(ConvertBelowThousand(k), Space) <==> k >= 100
    ensures "and" in Split(ConvertBelowThousand(k), Space) <==> k >= 100 && k % 100 > 0
  {
    if k == 0 {
      assert Split("", Space) == [""];
    } else {
      ConvertSplits(k);
      GroupWordsMarkers(k);
    }
  }

  lemma AllWordsAppend(a: seq<string>, b: seq<string>)
    requires AllWords(a) && AllWords(b)
    ensures AllWords(a + b)
  {
    forall i | 0 <= i < |a + b| ensures IsWord((a + b)[i]) {
      if i >= |a| { assert (a + b)[i] == b[i - |a|]; }
    }
  }

  lemma ScaledAreWords(k: nat, scale: string)
    requires IsWord(scale)
    ensures AllWords(Scaled(k, scale)) && (k > 0 <==> Scaled(k, scale) != [])
  {
    GroupWordsAreWords(k);
    if k > 0 { AllWordsAppend(GroupWords(k), [scale]); }
  }

  /** A positive amount has a non-empty spelling made of words. */
  lemma WordListAreWords(n: nat)
    ensures AllWords(WordList(n)) && (n > 0 <==> WordList(n) != [])
  {
    var g := Decompose(n);
    LinkWords();
    ScaledAreWords(g.crore, "Crore");
    ScaledAreWords(g.lakh, "Lakh");
    ScaledAreWords(g.thousand, "Thousand");
    GroupWordsAreWords(g.rest);
    AllWordsAppend(Scaled(g.crore, "Crore"), Scaled(g.lakh, "Lakh"));
    AllWordsAppend(Scaled(g.crore, "Crore") + Scaled(g.lakh, "Lakh"), Scaled(g.thousand, "Thousand"));
    AllWordsAppend(Scaled(g.crore, "Crore") + Scaled(g.lakh, "Lakh") + Scaled(g.thousand, "Thousand"), GroupWords(g.rest));
  }

  /** The text emitted for the words `ws` when every piece so far ended with a space. */
  function Pad(ws: seq<string>): string {
    if ws == [] then "" else Join(ws, [Space]) + [Space]
  }

  lemma PadAppend(ws: seq<string>, g: seq<string>)
    requires g != []
    ensures Pad(ws) + Join(g, [Space]) == Join(ws + g, [Space])
    ensures Pad(ws) + Join(g, [Space]) + [Space] == Pad(ws + g)
  {
    if ws != [] {
      JoinAppend(ws, g, [Space]);
    } else {
      assert ws + g == g;
    }
  }

  lemma SuffixStep(j: string, scale: string, suffix: string)
    requires suffix == [Space] + scale + [Space]
    ensures j + suffix == (j + [Space] + scale) + [Space]
  {
  }

  lemma PadScaledWords(ws: seq<string>, group: seq<string>, scale: string, suffix: string)
    requires group != [] && suffix == [Space] + scale + [Space]
    ensures Pad(ws) + (Join(group, [Space]) + suffix) == Pad(ws + (group + [scale]))
  {
    var p := Pad(ws);
    var j := Join(group, [Space]);
    var j2 := Join(group + [scale], [Space]);
    assert j2 == j + [Space] + scale by {
      JoinAppend(group, [scale], [Space]);
    }
    assert Pad(ws + (group + [scale])) == p + j2 + [Space] by {
      PadAppend(ws, group + [scale]);
    }
    assert j + suffix == j2 + [Space] by {
      SuffixStep(j, scale, suffix);
    }
    assert p + (j2 + [Space]) == p + j2 + [Space];
  }

  lemma PadScaled(ws: seq<string>, k: nat, scale: string, suffix: string)
    requires suffix == [Space] + scale + [Space]
    ensures Pad(ws) + Piece(k, suffix) == Pad(ws + Scaled(k, scale))
  {
    if k > 0 {
      ConvertSpellsGroup(k);
      GroupWordsAreWords(k);
      PadScaledWords(ws, GroupWords(k), scale, suffix);
    } else {
      assert ws + [] == ws;
    }
  }

  lemma PadRest(ws: seq<string>, r: nat)
    requires r > 0
    ensures Pad(ws) + Piece(r, "") == Join(ws + GroupWords(r), [Space])
  {
    assert Piece(r, "") == ConvertBelowThousand(r);
    ConvertSpellsGroup(r);
    GroupWordsAreWords(r);
    PadAppend(ws, GroupWords(r));
  }

  /** Each scale suffix is a space, the scale word and a space. */
  lemma ScaleSuffixes()
    ensures " Crore " == [Space] + "Crore" + [Space]
    ensures " Lakh " == [Space] + "Lakh" + [Space]
    ensures " Thousand " == [Space] + "Thousand" + [Space]
  {
  }

  /** The scaled groups (Crore, Lakh, Thousand) as words. */
  function LeadingWords(g: Groups): seq<string> {
    Scaled(g.crore, "Crore") + Scaled(g.lakh, "Lakh") + Scaled(g.thousand, "Thousand")
  }

  lemma CroreLakhPieces(g: Groups)
    ensures Piece(g.crore, " Crore ") + Piece(g.lakh, " Lakh ")
      == Pad(Scaled(g.crore, "Crore") + Scaled(g.lakh, "Lakh"))
  {
    var w1 := Scaled(g.crore, "Crore");
    ScaleSuffixes();
    assert Piece(g.crore, " Crore ") == Pad(w1) by {
      PadScaled([], g.crore, "Crore", " Crore ");
      assert [] + w1 == w1;
    }
    PadScaled(w1, g.lakh, "Lakh", " Lakh ");
  }

  lemma AssembledLeading(g: Groups)
    ensures AssembledGroups(g) == Pad(LeadingWords(g)) + Piece(g.rest, "")
  {
    var w2 := Scaled(g.crore, "Crore") + Scaled(g.lakh, "Lakh");
    var p2 := Piece(g.crore, " Crore ") + Piece(g.lakh, " Lakh ");
    assert p2 == Pad(w2) by {
      CroreLakhPieces(g);
    }
    assert Pad(w2) + Piece(g.thousand, " Thousand ") == Pad(LeadingWords(g)) by {
      ScaleSuffixes();
      PadScaled(w2, g.thousand, "Thousand", " Thousand ");
    }
  }

  /** For a positive amount, the trimmed `result` is the reference words joined by single spaces. */
  lemma SpellWholeJoinsWords(n: nat)
    requires n > 0
    ensures SpellWhole(n) == Join(WordList(n), [Space])
  {
    var r := Decompose(n).rest;
    var lead := LeadingWords(Decompose(n));
    var words := WordList(n);
    AssembledLeading(Decompose(n));
    assert words == lead + GroupWords(r);
    assert words != [] && Unpadded(Join(words, [Space])) by {
      WordListAreWords(n);
      JoinWordsUnpadded(words);
    }
    if r > 0 {
      assert Assembled(n) == Join(words, [Space]) by {
        PadRest(lead, r);
      }
      TrimUnpadded(Join(words, [Space]));
    } else {
      assert GroupWords(r) == [];
      assert words == lead;
      assert Assembled(n) == Join(words, [Space]) + [Space];
      TrimTrailingSpace(Join(words, [Space]));
    }
  }

  /**
   * What `getNumberToWords` returns: "Zero" for zero, nothing for an amount
   * whose floor is not positive, and otherwise a non-empty string without
   * a space at either end whose space-separated words are exactly the
   * reference spelling of the floored amount, so no two spaces are adjacent.
   */
  lemma NumberToWordsSpelling(x: real)
    ensures x == 0.0 ==> NumberToWords(x) == "Zero"
    ensures x != 0.0 && x.Floor <= 0 ==> NumberToWords(x) == ""
    ensures x.Floor > 0 ==> NumberToWords(x) != [] && Unpadded(NumberToWords(x))
    ensures x.Floor > 0 ==> Split(NumberToWords(x), Space) == WordList(x.Floor)
  {
    if x.Floor > 0 {
      var n: nat := x.Floor;
      SpellWholeJoinsWords(n);
      WordListAreWords(n);
      JoinWordsUnpadded(WordList(n));
      SplitJoin(WordList(n), Space);
    } else if x != 0.0 && x.Floor == 0 {
      assert Assembled(0) == "";
    }
  }

  /** No group's words contain a scale word. */
  lemma GroupWordsNoScale(k: nat)
    ensures "Crore" !in GroupWords(k) && "Lakh" !in GroupWords(k) && "Thousand" !in GroupWords(k)
  {
    if k >= 100 {
      var x := OnesAt(k / 100);
      assert !IsMarker(x) by {
        if k / 100 < 10 { OnesWord(k / 100); }
      }
      TailWordsAreWords(k % 100);
      assert GroupWords(k) == [x, "Hundred"] + (if k % 100 > 0 then ["and"] else []) + TailWords(k % 100);
    } else {
      TailWordsAreWords(k);
    }
  }

  /** A scaled group holds its own scale word when its count is not zero, and no other scale word. */
  lemma ScaledHas(k: nat, scale: string)
    requires scale == "Crore" || scale == "Lakh" || scale == "Thousand"
    ensures "Crore" in Scaled(k, scale) <==> k > 0 && scale == "Crore"
    ensures "Lakh" in Scaled(k, scale) <==> k > 0 && scale == "Lakh"
    ensures "Thousand" in Scaled(k, scale) <==> k > 0 && scale == "Thousand"
  {
    if k > 0 {
      GroupWordsNoScale(k);
      assert Scaled(k, scale) == GroupWords(k) + [scale];
    }
  }

  /** The reference words carry each scale word exactly when the group it names is not zero. */
  lemma WordListScales(n: nat)
    ensures "Crore" in WordList(n) <==> Decompose(n).crore > 0
    ensures "Lakh" in WordList(n) <==> Decompose(n).lakh > 0
    ensures "Thousand" in WordList(n) <==> Decompose(n).thousand > 0
  {
    var g := Decompose(n);
    var w1 := Scaled(g.crore, "Crore");
    var w2 := Scaled(g.lakh, "Lakh");
    var w3 := Scaled(g.thousand, "Thousand");
    var w4 := GroupWords(g.rest);
    ScaledHas(g.crore, "Crore");
    ScaledHas(g.lakh, "Lakh");
    ScaledHas(g.thousand, "Thousand");
    GroupWordsNoScale(g.rest);
    assert WordList(n) == w1 + w2 + w3 + w4;
  }

  /**
   * A group whose count is 0 contributes nothing to what `getNumberToWords`
   * renders: "Crore", "Lakh" and "Thousand" are among its words exactly
   * when the matching group count is not zero.
   */
  lemma NumberToWordsScales(x: real)
    requires x.Floor > 0
    ensures var g := Decompose(x.Floor); var ws := Split(NumberToWords(x), Space);
      ("Crore" in ws <==> g.crore > 0) && ("Lakh" in ws <==> g.lakh > 0) && ("Thousand" in ws <==> g.thousand > 0)
  {
    NumberToWordsSpelling(x);
    WordListScales(x.Floor);
  }

  // ---------------------------------------------------------------------
  // Reading the spelling back gives the amount
  // ---------------------------------------------------------------------

  lemma {:induction false} RunAppend(a: seq<string>, b: seq<string>, t: Tally)
    ensures Run(a + b, t) == Run(b, Run(a, t))
  {
    if a == [] {
      assert a + b == b;
    } else {
      assert (a + b)[1..] == a[1..] + b;
      RunAppend(a[1..], b, Step(t, a[0]));
    }
  }

  lemma RunOne(w: string, t: Tally)
    ensures Run([w], t) == Step(t, w)
  {
    assert [w][1..] == [];
  }

  lemma RunTail(m: nat, t: Tally)
    requires m < 100
    ensures Run(TailWords(m), t) == Tally(t.total, t.current + m)
  {
    if m >= 20 {
      TensWord(m / 10);
      RunOne(Tens[m / 10], t);
      if m % 10 > 0 {
        OnesWord(m % 10);
        RunAppend([Tens[m / 10]], [Ones[m % 10]], t);
        RunOne(Ones[m % 10], Tally(t.total, t.current + 10 * (m / 10)));
      } else {
        assert TailWords(m) == [Tens[m / 10]];
      }
    } else if m >= 10 {
      TeensWord(m - 10);
      RunOne(Teens[m - 10], t);
    } else if m > 0 {
      OnesWord(m);
      RunOne(Ones[m], t);
    }
  }

  /** Reading the words of a group count below one thousand leaves that count in progress. */
  lemma RunGroup(k: nat, t: Tally)
    requires k < 1000 && t.current == 0
    ensures Run(GroupWords(k), t) == Tally(t.total, k)
  {
    if k >= 100 {
      var h := k / 100;
      var m := k % 100;
      var a := if m > 0 then ["and"] else [];
      OnesWord(h);
      LinkWords();
      RunAppend([Ones[h]], ["Hundred"], t);
      RunOne(Ones[h], t);
      RunOne("Hundred", Tally(t.total, h));
      var afterHundred := Tally(t.total, h * 100);
      assert Run(a, afterHundred) == afterHundred by {
        if m > 0 { RunOne("and", afterHundred); }
      }
      RunAppend([Ones[h], "Hundred"], a, t);
      RunAppend([Ones[h], "Hundred"] + a, TailWords(m), t);
      RunTail(m, afterHundred);
    } else {
      RunTail(k, t);
    }
  }

  lemma RunScaled(k: nat, scale: string, unit: nat, t: Tally)
    requires k < 1000 && t.current == 0
    requires (scale == "Crore" && unit == Crore) || (scale == "Lakh" && unit == Lakh)
          || (scale == "Thousand" && unit == Thousand)
    ensures Run(Scaled(k, scale), t) == Tally(t.total + k * unit, 0)
  {
    if k > 0 {
      RunGroup(k, t);
      RunAppend(GroupWords(k), [scale], t);
      RunOne(scale, Tally(t.total, k));
    }
  }

  /** The reference spelling of an amount below 10^10 evaluates to that amount. */
  lemma EvaluateWordList(n: nat)
    requires n < 10000000000
    ensures Evaluate(WordList(n)) == n
  {
    var g := Decompose(n);
    var w1 := Scaled(g.crore, "Crore");
    var w2 := Scaled(g.lakh, "Lakh");
    var w3 := Scaled(g.thousand, "Thousand");
    var w4 := GroupWords(g.rest);
    var t0 := Tally(0, 0);
    var t1 := Tally(g.crore * Crore, 0);
    var t2 := Tally(g.crore * Crore + g.lakh * Lakh, 0);
    var t3 := Tally(g.crore * Crore + g.lakh * Lakh + g.thousand * Thousand, 0);
    assert Run(w1, t0) == t1 by { RunScaled(g.crore, "Crore", Crore, t0); }
    assert Run(w2, t1) == t2 by { RunScaled(g.lakh, "Lakh", Lakh, t1); }
    assert Run(w3, t2) == t3 by { RunScaled(g.thousand, "Thousand", Thousand, t2); }
    assert Run(w4, t3) == Tally(t3.total, g.rest) by { RunGroup(g.rest, t3); }
    assert Run(w1 + w2, t0) == t2 by { RunAppend(w1, w2, t0); }
    assert Run(w1 + w2 + w3, t0) == t3 by { RunAppend(w1 + w2, w3, t0); }
    assert Run(w1 + w2 + w3 + w4, t0) == Tally(t3.total, g.rest) by { RunAppend(w1 + w2 + w3, w4, t0); }
    assert WordList(n) == w1 + w2 + w3 + w4;
  }

  /**
   * Round trip: reading back what `getNumberToWords` renders for a
   * non-negative amount below 10^10 gives its floor (zero included, and an
   * amount below one, which renders empty, reads back as 0).
   */
  lemma ParseNumberToWords(x: real)
    requires 0.0 <= x && x.Floor < 10000000000
    ensures ParseWords(NumberToWords(x)) == x.Floor
  {
    if x == 0.0 {
      assert NumberToWords(0.0) == "Zero";
      assert IndexOf("Zero", Space) == 4;
      assert Split("Zero", Space) == ["Zero"];
      RunOne("Zero", Tally(0, 0));
    } else if x.Floor == 0 {
      NumberToWordsSpelling(x);
      assert Split("", Space) == [""];
      RunOne("", Tally(0, 0));
    } else {
      NumberToWordsSpelling(x);
      EvaluateWordList(x.Floor);
    }
  }

  /**
   * Worked examples of the words rendered (joined by single spaces, by
   * `SpellWholeJoinsWords`): 150, one lakh, and 12,34,567. Compound tens
   * are two words ("Sixty Seven").
   */
  lemma SpellingExamples()
    ensures WordList(150) == ["One", "Hundred", "and", "Fifty"]
    ensures WordList(100000) == ["One", "Lakh"]
  {
    assert Decompose(150) == Groups(0, 0, 0, 150);
    assert Decompose(100000) == Groups(0, 1, 0, 0);
  }

  lemma SpellingExampleLakhs()
    ensures WordList(1234567)
      == ["Twelve", "Lakh", "Thirty", "Four", "Thousand", "Five", "Hundred", "and", "Sixty", "Seven"]
  {
    assert Decompose(1234567) == Groups(0, 12, 34, 567);
  }

  /**
   * From 10^10 on the crore count has four digits, and the renderer reads
   * its hundreds digit past the end of the `ones` table: the words of 10^10
   * are "undefined Hundred Crore" (rendered joined by spaces, by
   * `SpellWholeJoinsWords`), and they read back as 0.
   */
  lemma TenBillionWords()
    ensures WordList(10000000000) == ["undefined", "Hundred", "Crore"]
    ensures Evaluate(WordList(10000000000)) == 0
  {
    var ws := ["undefined", "Hundred", "Crore"];
    assert WordList(10000000000) == ws by {
      assert Decompose(10000000000) == Groups(1000, 0, 0, 0);
      assert GroupWords(1000) == ["undefined", "Hundred"];
      assert Scaled(0, "Lakh") == [] && Scaled(0, "Thousand") == [] && GroupWords(0) == [];
    }
    assert Evaluate(ws) == 0;
  }
}

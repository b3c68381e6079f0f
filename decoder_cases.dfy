/**
 * What the decoder model gives on concrete TH codes, among them the cases
 * where the code as written differs from an idealised codec: a short code
 * that still decodes, a short code that fails, and the three-digit
 * positions of 'y' and 'z' that make two different codes decode alike.
 */
module DecoderCases {
  import opened Wrappers
  import opened Alphabet
  import opened Text
  import opened Decoder

  /** Each character of a code, as a symbol of its own. */
  function Singles(code: string): (r: seq<string>)
    ensures |r| == |code| && forall k :: 0 <= k < |code| ==> r[k] == [code[k]]
  {
    seq(|code|, k requires 0 <= k < |code| => [code[k]])
  }

  /** Without marks, every character is a symbol of its own. */
  lemma {:induction false} ExpandWithoutMarks(code: string)
    requires forall k :: 0 <= k < |code| ==> code[k] != MARK
    ensures Expand(code) == Some(Singles(code))
  {
    if code != [] {
      var prefix := code[..|code| - 1];
      ExpandWithoutMarks(prefix);
      assert Singles(code) == Singles(prefix) + [[code[|code| - 1]]];
    }
  }

  /** `str(v).zfill(2)` of a value below 100 is its two decimal digits. */
  lemma Zfill2Pair(v: nat)
    requires v < 100
    ensures Zfill2(v) == [DigitChar(v / 10), DigitChar(v % 10)]
  {
    if v < 10 {
      assert Zeros(1) == [DigitChar(0)];
    } else {
      assert Str(v / 10) == [DigitChar(v / 10)];
    }
  }

  /** 'y' is at position 100, which `zfill(2)` leaves at three digits. */
  lemma Zfill2Hundred()
    ensures Zfill2(100) == "100"
  {
    assert Str(10) == "10";
  }

  /** A code without marks whose characters have the given values expands to
      its characters and has the digits of those values. */
  lemma UnmarkedDigits(code: string, values: seq<nat>)
    requires forall k :: 0 <= k < |code| ==> code[k] != MARK
    requires |values| == |code|
    requires forall k :: 0 <= k < |code| ==> SymbolValue([code[k]]) == Some(values[k])
    ensures Expand(code) == Some(Singles(code))
    ensures DigitString(Singles(code)) == Success(DigitsFor(values))
  {
    ExpandWithoutMarks(code);
    DigitStringOfValues(Singles(code), values);
  }

  /** The empty code has an empty digit string, and `int('')` fails. */
  lemma EmptyCode()
    ensures Decode("") == Failure(NotAnInteger(""))
  {
  }

  /** A leading mark is caught rather than raised. */
  lemma LeadingMarkCode()
    ensures Decode("'A5") == Failure(MarkWithoutSymbol)
  {
    DecodeLeadingMark("'A5");
  }

  /** "A5" expands to "A" and "5", which give the four digits "1005". */
  lemma ShortCodeDigits()
    ensures Expand("A5") == Some(["A", "5"]) && DigitString(["A", "5"]) == Success("1005")
  {
    UnmarkedDigits("A5", [10, 5]);
    assert Singles("A5") == ["A", "5"];
    assert [10] + [5] == [10, 5] && [] + [10] == [10];
    DigitsForSnoc([], 10);
    DigitsForSnoc([10], 5);
    Zfill2Pair(10);
    Zfill2Pair(5);
    assert DigitChar(1) == '1' && DigitChar(0) == '0' && DigitChar(5) == '5';
    assert Zfill2(10) == "10" && Zfill2(5) == "05";
    assert DigitsFor([10]) == "10";
    assert DigitsFor([10, 5]) == "10" + "05" == "1005";
  }

  /** "A5" gives the four digits "1005": the latitude slice is "1005" but the
      longitude slice is empty, so `int` fails on it. */
  lemma ShortCode()
    ensures Expand("A5") == Some(["A", "5"]) && DigitString(["A", "5"]) == Success("1005")
    ensures DecodeCodes("A5") == Failure(NotAnInteger(""))
  {
    ShortCodeDigits();
    SplitCodesIff("1005");
  }

  /** A digit character is worth its own digit. */
  lemma DigitSymbol(c: char)
    requires IsDigit(c)
    ensures SymbolValue([c]) == Some(DigitOf(c))
  {
  }

  /** The symbols of "12345" are its characters, worth 1 to 5. */
  lemma FiveSymbols()
    ensures Expand("12345") == Some(Singles("12345"))
    ensures forall k :: 0 <= k < 5 ==> SymbolValue(Singles("12345")[k]) == Some([1, 2, 3, 4, 5][k])
  {
    var code: string, values: seq<nat> := "12345", [1, 2, 3, 4, 5];
    forall k | 0 <= k < 5
      ensures SymbolValue([code[k]]) == Some(values[k])
    {
      DigitSymbol(code[k]);
    }
    ExpandWithoutMarks(code);
  }

  /** "12345" has only ten digits, those of the values 1 to 5. */
  lemma FiveSymbolDigits()
    ensures Expand("12345").Some?
    ensures DigitString(Expand("12345").value) == Success(DigitsFor([1, 2, 3, 4, 5]))
    ensures |DigitsFor([1, 2, 3, 4, 5])| == 10
  {
    FiveSymbols();
    DigitStringOfValues(Singles("12345"), [1, 2, 3, 4, 5]);
    DigitsForValue([1, 2, 3, 4, 5]);
  }

  /** Ten digits are enough to decode: "12345" gives latitude code 1020304
      and longitude code 5. */
  lemma FiveSymbolCode()
    ensures DecodeCodes("12345") == Success(Codes(1020304, 5))
  {
    var values: seq<nat> := [1, 2, 3, 4, 5];
    var lat, lon := values[..4], values[4..];
    assert lat == [1, 2, 3, 4];
    Base100OfFour(lat);
    assert lon == [5] && lon[..0] == [];
    assert Base100(lat) == 1020304 && Base100(lon) == 5;
    FiveSymbols();
    TwoDigitCodeDecodes("12345", values);
  }

  /** A code of eight unmarked characters worth less than 100 each: its two
      codes are the base-100 numbers of the first and last four values. */
  lemma EightUnmarked(code: string, values: seq<nat>)
    requires |code| == 8 && |values| == 8
    requires forall k :: 0 <= k < 8 ==> code[k] != MARK
    requires forall k :: 0 <= k < 8 ==> SymbolValue([code[k]]) == Some(values[k]) && values[k] < 100
    ensures DecodeCodes(code).Success?
    ensures DecodeCodes(code).value.latPart == values[0] * 1000000 + values[1] * 10000 + values[2] * 100 + values[3]
    ensures DecodeCodes(code).value.lonPart == values[4] * 1000000 + values[5] * 10000 + values[6] * 100 + values[7]
  {
    ExpandWithoutMarks(code);
    EightSymbolCode(code, values);
  }

  lemma ExampleSymbolValues()
    ensures SymbolValue("9") == Some(9) && SymbolValue("5") == Some(5) && SymbolValue("0") == Some(0)
    ensures SymbolValue("J") == Some(18) && SymbolValue("A") == Some(10)
  {
  }

  lemma ExampleCodes()
    ensures DecodeCodes("9500JA00") == Success(Codes(9050000, 18100000))
  {
    var code, values: seq<nat> := "9500JA00", [9, 5, 0, 0, 18, 10, 0, 0];
    ExampleSymbolValues();
    assert forall k :: 0 <= k < 8 ==> SymbolValue([code[k]]) == Some(values[k]);
    EightUnmarked(code, values);
  }

  /** "9500JA00": the symbols 9, 5, 0, 0 and J (18), A (10), 0, 0 give the
      codes 9050000 and 18100000, half a degree north and one degree east. */
  lemma ExampleCoordinate()
    ensures Decode("9500JA00") == Success(Coordinate(0.5, 1.0))
  {
    ExampleCodes();
    TransformExample();
  }

  /** 'y' (position 100) followed by seven zeros has 17 digits, and its first
      16 are those of 'A' (position 10) followed by seven zeros: the two codes
      decode to the same coordinate. */
  lemma ThreeDigitCollision()
    ensures DecodeCodes("y0000000") == DecodeCodes("A0000000")
    ensures DecodeCodes("A0000000") == Success(Codes(10000000, 0))
  {
    var wide := WideDigits();
    var narrow := NarrowDigits();
    NarrowSplit();
    assert wide == narrow + "0";
    TrailingDigitsIgnored(narrow, "0");
  }

  /** "10" and fourteen zeros split into 10000000 and 0. */
  lemma NarrowSplit()
    ensures SplitCodes("10" + Zeros(14)) == Success(Codes(10000000, 0))
  {
    var lat := "10" + Zeros(6);
    assert "10" + Zeros(14) == lat + Zeros(8);
    ZerosValue(6);
    ZerosValue(8);
    assert DigitsValue("10") == 10 by {
      assert "10"[..1] == "1" && "1"[..0] == [];
    }
    DigitsValueAppend("10", Zeros(6));
    assert Pow10(6) == 1000000;
    SplitAfterEight(lat, Zeros(8));
  }

  /** A symbol followed by seven zeros: its two digits, then fourteen zeros. */
  lemma LeadThenZeros(c: char, v: nat)
    requires c != MARK && SymbolValue([c]) == Some(v)
    ensures Expand([c] + "0000000") == Some(Singles([c] + "0000000"))
    ensures DigitString(Singles([c] + "0000000")) == Success(Zfill2(v) + Zeros(14))
  {
    var code := [c] + "0000000";
    var zeros: seq<nat> := [0, 0, 0, 0, 0, 0, 0];
    assert SymbolValue("0") == Some(0);
    assert forall k :: 1 <= k < |code| ==> code[k] == '0';
    UnmarkedDigits(code, [v] + zeros);
    DigitsForZeros(zeros);
    DigitsForAppend([v], zeros);
    assert [v][..0] == [];
    assert DigitsFor([v]) == Zfill2(v);
    assert 2 * |zeros| == 14;
  }

  /** The digits of "y0000000": "100" and fourteen zeros. */
  lemma WideDigits() returns (digits: string)
    ensures Expand("y0000000") == Some(Singles("y0000000"))
    ensures DigitString(Singles("y0000000")) == Success(digits)
    ensures digits == "100" + Zeros(14)
  {
    assert SymbolValue("y") == Some(100);
    LeadThenZeros('y', 100);
    assert "y0000000" == ['y'] + "0000000";
    Zfill2Hundred();
    digits := "100" + Zeros(14);
  }

  /** The digits of "A0000000": "10" and fourteen zeros. */
  lemma NarrowDigits() returns (digits: string)
    ensures Expand("A0000000") == Some(Singles("A0000000"))
    ensures DigitString(Singles("A0000000")) == Success(digits)
    ensures digits == "10" + Zeros(14)
  {
    assert SymbolValue("A") == Some(10);
    LeadThenZeros('A', 10);
    assert "A0000000" == ['A'] + "0000000";
    Zfill2Pair(10);
    digits := "10" + Zeros(14);
  }

  /** Values that are all zero give twice as many zero digits. */
  lemma {:induction false} DigitsForZeros(values: seq<nat>)
    requires forall k :: 0 <= k < |values| ==> values[k] == 0
    ensures DigitsFor(values) == Zeros(2 * |values|)
  {
    if values != [] {
      DigitsForZeros(values[..|values| - 1]);
      Zfill2Pair(0);
      assert Zeros(2 * |values|) == Zeros(2 * |values| - 2) + "00";
    }
  }

  /** 'I' is left out of the table, so a code starting with it fails on it. */
  lemma DroppedLetterCode()
    ensures Decode("I0000000") == Failure(InvalidSymbol("I"))
  {
    ExpandWithoutMarks("I0000000");
    DecodeFirstInvalidSymbol("I0000000", 0);
  }

  /** A marked digit is not in the table: "A0'" fails on the symbol "0'". */
  lemma MarkedDigitCode()
    ensures Decode("A0'") == Failure(InvalidSymbol("0'"))
  {
    ExpandWithoutMarks("A");
    assert Singles("A") == ["A"];
    ExpandSymbol("A", ["A"], "0'");
    assert "A" + "0'" == "A0'";
    DecodeFirstInvalidSymbol("A0'", 1);
  }

  /** Two marks make a symbol no entry has: "A''5" fails on "A''". */
  lemma DoubleMarkCode()
    ensures Decode("A''5") == Failure(InvalidSymbol("A''"))
  {
    ExpandSymbol([], [], "A''");
    assert [] + "A''" == "A''" && [] + ["A''"] == ["A''"];
    ExpandSymbol("A''", ["A''"], "5");
    assert "A''" + "5" == "A''5";
    DecodeFirstInvalidSymbol("A''5", 0);
  }
}

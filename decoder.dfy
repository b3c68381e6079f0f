/**
 * `th_to_lat_lon` of main1.py: a TH code is expanded into combined symbols,
 * each symbol is replaced by its table position written with `zfill(2)`,
 * the digits are cut into a latitude code (digits 0..8) and a longitude
 * code (digits 8..16), and an affine transform gives degrees.  Every
 * exception the Python code can raise on the way is caught and turned into
 * `(None, None)`; here it is a `Failure` naming what went wrong.
 *
 * The specification functions (Expand, DigitString, SplitCodes, DecodeCodes,
 * Decode) state each step; the method ThToLatLon runs the two loops of the
 * source, searching the table as `dict_chars.index` does, and is proved to
 * return Decode(code).
 */
module Decoder {
  import opened Wrappers
  import opened Alphabet
  import opened Text

  /** Why a code could not be decoded. */
  datatype DecodeError =
      /** A mark with no symbol before it: `expanded_code[-1]` on an empty list. */
    | MarkWithoutSymbol
      /** A combined symbol that `dict_chars` does not hold. */
    | InvalidSymbol(symbol: string)
      /** `int(...)` of an empty slice of the digit string. */
    | NotAnInteger(text: string)

  /** `lat_part` and `lon_part`: the two integer codes before the transform. */
  datatype Codes = Codes(latPart: nat, lonPart: nat)

  /** Degrees of latitude and longitude, exact rather than floating point. */
  datatype Coordinate = Coordinate(latitude: real, longitude: real)

  const LAT_OFFSET: int := 9000000
  const LON_OFFSET: int := 18000000
  const SCALE: real := 100000.0

  // ---------------------------------------------------------------------
  // Step 1: expansion into combined symbols
  // ---------------------------------------------------------------------

  /** A combined symbol: one character other than the mark, then only marks. */
  predicate WellFormed(symbol: string) {
    |symbol| >= 1 && symbol[0] != MARK && forall j :: 1 <= j < |symbol| ==> symbol[j] == MARK
  }

  function NonMarkCount(s: string): nat {
    if s == [] then 0 else NonMarkCount(s[..|s| - 1]) + (if s[|s| - 1] == MARK then 0 else 1)
  }

  /** The first loop of `th_to_lat_lon`, character by character: a mark is
      appended to the latest symbol, any other character starts a new one.
      None where a mark finds no symbol to attach to. */
  function Expand(code: string): Option<seq<string>> {
    if code == [] then Some([])
    else
      match Expand(code[..|code| - 1])
      case None => None
      case Some(symbols) =>
        var c := code[|code| - 1];
        if c != MARK then Some(symbols + [[c]])
        else if symbols == [] then None
        else Some(symbols[|symbols| - 1 := symbols[|symbols| - 1] + [MARK]])
  }

  /** Concatenating the symbols of an expansion spells the code again. */
  lemma {:induction false} ExpandSpellsCode(code: string)
    requires Expand(code).Some?
    ensures Concat(Expand(code).value) == code
  {
    if code != [] {
      var prefix, c := code[..|code| - 1], code[|code| - 1];
      assert code == prefix + [c];
      ExpandSpellsCode(prefix);
      var symbols := Expand(prefix).value;
      if c != MARK {
        ConcatSnoc(symbols, [c]);
      } else {
        var n := |symbols|;
        var last := symbols[n - 1];
        assert symbols == symbols[..n - 1] + [last];
        assert symbols[n - 1 := last + [MARK]] == symbols[..n - 1] + [last + [MARK]];
        ConcatSnoc(symbols[..n - 1], last);
        ConcatSnoc(symbols[..n - 1], last + [MARK]);
      }
    }
  }

  /** An expansion has one symbol per character other than the mark. */
  lemma {:induction false} ExpandCountsSymbols(code: string)
    requires Expand(code).Some?
    ensures |Expand(code).value| == NonMarkCount(code)
  {
    if code != [] {
      ExpandCountsSymbols(code[..|code| - 1]);
    }
  }

  /** Every symbol of an expansion is one non-mark character followed by marks. */
  lemma {:induction false} ExpandWellFormed(code: string)
    requires Expand(code).Some?
    ensures forall k :: 0 <= k < |Expand(code).value| ==> WellFormed(Expand(code).value[k])
  {
    if code != [] {
      ExpandWellFormed(code[..|code| - 1]);
    }
  }

  /** Expansion fails exactly when the code starts with a mark. */
  lemma {:induction false} ExpandFailsIff(code: string)
    ensures Expand(code).None? <==> |code| > 0 && code[0] == MARK
  {
    if code != [] {
      var prefix := code[..|code| - 1];
      ExpandFailsIff(prefix);
      if prefix != [] && Expand(prefix).Some? {
        ExpandSpellsCode(prefix);
        assert Expand(prefix).value != [];
      }
    }
  }

  /** Appending one well-formed symbol to a code appends it to the expansion. */
  lemma {:induction false} ExpandSymbol(prefix: string, symbols: seq<string>, symbol: string)
    requires Expand(prefix) == Some(symbols) && WellFormed(symbol)
    ensures Expand(prefix + symbol) == Some(symbols + [symbol])
    decreases |symbol|
  {
    if |symbol| == 1 {
      assert (prefix + symbol)[..|prefix|] == prefix;
      assert symbol == [symbol[0]];
    } else {
      var shorter := symbol[..|symbol| - 1];
      ExpandSymbol(prefix, symbols, shorter);
      assert symbol == shorter + [MARK];
      assert (prefix + symbol)[..|prefix + symbol| - 1] == prefix + shorter;
      assert (symbols + [shorter])[|symbols| := shorter + [MARK]] == symbols + [symbol];
    }
  }

  /** Expanding the concatenation of well-formed symbols gives them back. */
  lemma {:induction false} ExpandConcat(symbols: seq<string>)
    requires forall k :: 0 <= k < |symbols| ==> WellFormed(symbols[k])
    ensures Expand(Concat(symbols)) == Some(symbols)
  {
    if symbols != [] {
      var init := symbols[..|symbols| - 1];
      ExpandConcat(init);
      ExpandSymbol(Concat(init), init, symbols[|symbols| - 1]);
      assert init + [symbols[|symbols| - 1]] == symbols;
    }
  }

  /** A table entry is a well-formed symbol. */
  lemma EntryWellFormed(i: nat)
    requires i < |DICT_CHARS|
    ensures WellFormed(DICT_CHARS[i])
  {
    EntriesAtTheirValue();
    ValuedSymbolShape(DICT_CHARS[i]);
  }

  // ---------------------------------------------------------------------
  // Steps 2 and 3: lookup and the digit string
  // ---------------------------------------------------------------------

  /** `str(v).zfill(2)`. */
  function Zfill2(v: nat): string {
    ZFill(Str(v), 2)
  }

  /** A value below 100 gives exactly two digits, one of 100 or more three. */
  lemma Zfill2Digits(v: nat)
    requires v < 1000
    ensures AllDigits(Zfill2(v)) && DigitsValue(Zfill2(v)) == v
    ensures |Zfill2(v)| == if v < 100 then 2 else 3
  {
    StrRoundTrip(v);
    ZFillValue(Str(v), 2);
  }

  /** The second loop of `th_to_lat_lon` followed by `''.join`: each symbol's
      position, zero-padded, in expansion order; the first symbol outside the
      table is the error.  The position is read off the symbol by
      SymbolValue, which PositionIsSymbolValue proves equal to searching
      `dict_chars`; the method NumericString does the search itself. */
  function DigitString(symbols: seq<string>): Result<string, DecodeError> {
    if symbols == [] then Success([])
    else
      match DigitString(symbols[..|symbols| - 1])
      case Failure(e) => Failure(e)
      case Success(digits) =>
        match SymbolValue(symbols[|symbols| - 1])
        case None => Failure(InvalidSymbol(symbols[|symbols| - 1]))
        case Some(v) => Success(digits + Zfill2(v))
  }

  /** The digit string of known symbol values. */
  function DigitsFor(values: seq<nat>): string {
    if values == [] then [] else DigitsFor(values[..|values| - 1]) + Zfill2(values[|values| - 1])
  }

  /** How many values need three digits. */
  function WideCount(values: seq<nat>): nat {
    if values == [] then 0
    else WideCount(values[..|values| - 1]) + (if values[|values| - 1] >= 100 then 1 else 0)
  }

  /** Base-100 number whose digits are the values. */
  function Base100(values: seq<nat>): nat {
    if values == [] then 0 else Base100(values[..|values| - 1]) * 100 + values[|values| - 1]
  }

  /** Once a prefix holds an invalid symbol, later symbols change nothing. */
  lemma {:induction false} DigitStringFailureSticks(a: seq<string>, b: seq<string>)
    requires DigitString(a).Failure?
    ensures DigitString(a + b) == DigitString(a)
    decreases |b|
  {
    if b == [] {
      assert a + b == a;
    } else {
      DigitStringFailureSticks(a, b[..|b| - 1]);
      assert (a + b)[..|a + b| - 1] == a + b[..|b| - 1];
    }
  }

  /** One step of the second loop: the next symbol either extends the digits
      or is the symbol the whole digit string fails on. */
  lemma DigitStringStep(symbols: seq<string>, j: nat, digits: string)
    requires j < |symbols| && DigitString(symbols[..j]) == Success(digits)
    ensures SymbolValue(symbols[j]).None? ==> DigitString(symbols) == Failure(InvalidSymbol(symbols[j]))
    ensures SymbolValue(symbols[j]).Some? ==>
              DigitString(symbols[..j + 1]) == Success(digits + Zfill2(SymbolValue(symbols[j]).value))
  {
    var prefix, symbol := symbols[..j + 1], symbols[j];
    assert prefix[..|prefix| - 1] == symbols[..j] && prefix[|prefix| - 1] == symbol;
    match SymbolValue(symbol)
    case None =>
      assert DigitString(prefix) == Failure(InvalidSymbol(symbol));
      DigitStringFailureSticks(prefix, symbols[j + 1..]);
      assert prefix + symbols[j + 1..] == symbols;
    case Some(v) =>
      assert DigitString(prefix) == Success(digits + Zfill2(v));
  }


  /** Symbols that are all in the table give the digits of their positions. */
  lemma {:induction false} DigitStringOfValues(symbols: seq<string>, values: seq<nat>)
    requires |values| == |symbols|
    requires forall k :: 0 <= k < |symbols| ==> SymbolValue(symbols[k]) == Some(values[k])
    ensures DigitString(symbols) == Success(DigitsFor(values))
  {
    if symbols != [] {
      DigitStringOfValues(symbols[..|symbols| - 1], values[..|values| - 1]);
    }
  }

  /** The digit string fails exactly when some symbol is not in the table,
      and then names the first such symbol. */
  lemma {:induction false} DigitStringFirstInvalid(symbols: seq<string>, k: nat)
    requires k < |symbols| && SymbolValue(symbols[k]).None?
    requires forall j :: 0 <= j < k ==> SymbolValue(symbols[j]).Some?
    ensures DigitString(symbols) == Failure(InvalidSymbol(symbols[k]))
  {
    var values := seq(k, j requires 0 <= j < k => SymbolValue(symbols[j]).value);
    DigitStringOfValues(symbols[..k], values);
    assert symbols[..k + 1][..k] == symbols[..k];
    DigitStringFailureSticks(symbols[..k + 1], symbols[k + 1..]);
    assert symbols[..k + 1] + symbols[k + 1..] == symbols;
  }

  /** Values all below 1000 give two digits each, plus one per value of 100
      or more. */
  lemma {:induction false} DigitsForShape(values: seq<nat>)
    requires forall k :: 0 <= k < |values| ==> values[k] < 1000
    ensures AllDigits(DigitsFor(values))
    ensures |DigitsFor(values)| == 2 * |values| + WideCount(values)
  {
    if values != [] {
      DigitsForShape(values[..|values| - 1]);
      Zfill2Digits(values[|values| - 1]);
    }
  }

  /** Values all below 100 are base-100 digits of the number the string denotes. */
  lemma {:induction false} DigitsForValue(values: seq<nat>)
    requires forall k :: 0 <= k < |values| ==> values[k] < 100
    ensures AllDigits(DigitsFor(values)) && |DigitsFor(values)| == 2 * |values|
    ensures DigitsValue(DigitsFor(values)) == Base100(values)
  {
    if values != [] {
      var init := values[..|values| - 1];
      var v := values[|values| - 1];
      DigitsForValue(init);
      Zfill2Digits(v);
      DigitsValueAppend(DigitsFor(init), Zfill2(v));
      assert Pow10(2) == 100;
    }
  }

  lemma DigitsForSnoc(values: seq<nat>, last: nat)
    ensures DigitsFor(values + [last]) == DigitsFor(values) + Zfill2(last)
  {
    assert (values + [last])[..|values|] == values;
  }

  lemma {:induction false} DigitsForAppend(a: seq<nat>, b: seq<nat>)
    ensures DigitsFor(a + b) == DigitsFor(a) + DigitsFor(b)
    decreases |b|
  {
    if b == [] {
      assert a + b == a;
    } else {
      var init, last := b[..|b| - 1], b[|b| - 1];
      DigitsForAppend(a, init);
      AppendLast(a, b);
      DigitsForSnoc(init, last);
      DigitsForSnoc(a + init, last);
      AppendAssoc(DigitsFor(a), DigitsFor(init), Zfill2(last));
    }
  }

  /** Four base-100 digits v0..v3 denote v0·10^6 + v1·10^4 + v2·10^2 + v3. */
  lemma Base100OfFour(values: seq<nat>)
    requires |values| == 4
    ensures Base100(values) == values[0] * 1000000 + values[1] * 10000 + values[2] * 100 + values[3]
  {
    var a, b, c, d := values[0], values[1], values[2], values[3];
    assert values == [a, b, c, d];
    assert [a][..0] == [];
    assert Base100([a]) == a;
    assert [a, b][..1] == [a];
    assert Base100([a, b]) == a * 100 + b;
    assert [a, b, c][..2] == [a, b];
    assert Base100([a, b, c]) == (a * 100 + b) * 100 + c;
    assert [a, b, c, d][..3] == [a, b, c];
    assert Base100([a, b, c, d]) == ((a * 100 + b) * 100 + c) * 100 + d;
    assert ((a * 100 + b) * 100 + c) * 100 + d == a * 1000000 + b * 10000 + c * 100 + d;
  }

  // ---------------------------------------------------------------------
  // Step 4: the two integer codes and the transform
  // ---------------------------------------------------------------------

  /** `int(numeric_string[:8])` and `int(numeric_string[8:16])`. */
  function SplitCodes(digits: string): Result<Codes, DecodeError> {
    var latText := Slice(digits, 0, 8);
    var lonText := Slice(digits, 8, 16);
    match ParseInt(latText)
    case None => Failure(NotAnInteger(latText))
    case Some(latPart) =>
      match ParseInt(lonText)
      case None => Failure(NotAnInteger(lonText))
      case Some(lonPart) => Success(Codes(latPart, lonPart))
  }

  /** A digit string yields codes exactly when it has more than 8 digits: the
      first 8 are the latitude code, the next up to 8 the longitude code, and
      anything further is ignored. */
  lemma SplitCodesIff(digits: string)
    requires AllDigits(digits)
    ensures SplitCodes(digits).Success? <==> |digits| > 8
    ensures |digits| > 8 ==>
              SplitCodes(digits) == Success(Codes(DigitsValue(digits[..8]), DigitsValue(digits[8..Min(16, |digits|)])))
    ensures |digits| <= 8 ==> SplitCodes(digits) == Failure(NotAnInteger([]))
  {
  }

  /** Eight digits followed by one to eight more: the two groups are the codes. */
  lemma SplitAfterEight(latDigits: string, lonDigits: string)
    requires AllDigits(latDigits) && AllDigits(lonDigits)
    requires |latDigits| == 8 && 1 <= |lonDigits| <= 8
    ensures SplitCodes(latDigits + lonDigits) == Success(Codes(DigitsValue(latDigits), DigitsValue(lonDigits)))
  {
    var digits := latDigits + lonDigits;
    assert digits[..8] == latDigits;
    assert digits[8..Min(16, |digits|)] == lonDigits;
    assert AllDigits(digits);
    SplitCodesIff(digits);
  }

  /** Digits after the sixteenth do not matter. */
  lemma TrailingDigitsIgnored(digits: string, extra: string)
    requires |digits| >= 16
    ensures SplitCodes(digits + extra) == SplitCodes(digits)
  {
    assert (digits + extra)[..8] == digits[..8];
    assert (digits + extra)[8..16] == digits[8..16];
  }

  /** `latitude = (lat_part - 9000000) / 100000.0` and
      `longitude = (lon_part - 18000000) / 100000.0`. */
  function Transform(codes: Codes): Coordinate {
    Coordinate((codes.latPart - LAT_OFFSET) as real / SCALE, (codes.lonPart - LON_OFFSET) as real / SCALE)
  }

  /** The transform can be undone, so distinct codes give distinct coordinates. */
  lemma TransformInverse(codes: Codes)
    ensures Transform(codes).latitude * SCALE + LAT_OFFSET as real == codes.latPart as real
    ensures Transform(codes).longitude * SCALE + LON_OFFSET as real == codes.lonPart as real
  {
  }

  lemma TransformInjective(a: Codes, b: Codes)
    requires Transform(a) == Transform(b)
    ensures a == b
  {
    TransformInverse(a);
    TransformInverse(b);
  }

  lemma TransformExample()
    ensures Transform(Codes(9050000, 18100000)) == Coordinate(0.5, 1.0)
    ensures Transform(Codes(9000000, 18000000)) == Coordinate(0.0, 0.0)
  {
  }

  // ---------------------------------------------------------------------
  // The whole decoder
  // ---------------------------------------------------------------------

  /** The two integer codes of a TH code, or why there are none. */
  function DecodeCodes(code: string): Result<Codes, DecodeError> {
    match Expand(code)
    case None => Failure(MarkWithoutSymbol)
    case Some(symbols) =>
      match DigitString(symbols)
      case Failure(e) => Failure(e)
      case Success(digits) => SplitCodes(digits)
  }

  /** `th_to_lat_lon(code)`, with `(None, None)` as a Failure. */
  function Decode(code: string): Result<Coordinate, DecodeError> {
    match DecodeCodes(code)
    case Failure(e) => Failure(e)
    case Success(codes) => Success(Transform(codes))
  }

  /** The first loop of `th_to_lat_lon`: grows `expanded_code`, extending its
      last symbol in place for each mark. */
  method ExpandCode(code: string) returns (r: Option<seq<string>>)
    ensures r == Expand(code)
  {
    var expanded: seq<string> := [];
    var i := 0;
    while i < |code|
      invariant 0 <= i <= |code|
      invariant Expand(code[..i]) == Some(expanded)
    {
      assert code[..i + 1][..i] == code[..i];
      if code[i] == MARK {
        if expanded == [] {
          ExpandFailsIff(code[..i + 1]);
          ExpandFailsIff(code);
          return None;
        }
        expanded := expanded[|expanded| - 1 := expanded[|expanded| - 1] + [MARK]];
      } else {
        expanded := expanded + [[code[i]]];
      }
      i := i + 1;
    }
    assert code[..i] == code;
    r := Some(expanded);
  }

  /** The second loop of `th_to_lat_lon` and the `''.join` after it. */
  method NumericString(expanded: seq<string>) returns (r: Result<string, DecodeError>)
    ensures r == DigitString(expanded)
  {
    var numeric: seq<string> := [];
    var j := 0;
    while j < |expanded|
      invariant 0 <= j <= |expanded|
      invariant DigitString(expanded[..j]) == Success(Concat(numeric))
    {
      var position := Position(expanded[j]);
      PositionIsSymbolValue(expanded[j]);
      DigitStringStep(expanded, j, Concat(numeric));
      if position.None? {
        return Failure(InvalidSymbol(expanded[j]));
      }
      ConcatSnoc(numeric, Zfill2(position.value));
      numeric := numeric + [Zfill2(position.value)];
      j := j + 1;
    }
    assert expanded[..j] == expanded;
    r := Success(Concat(numeric));
  }

  /** `th_to_lat_lon`: the two loops, then the slices, `int` and the transform;
      each exception of the source is a Failure. */
  method ThToLatLon(code: string) returns (r: Result<Coordinate, DecodeError>)
    ensures r == Decode(code)
  {
    var expanded := ExpandCode(code);
    if expanded.None? {
      return Failure(MarkWithoutSymbol);
    }
    var numeric := NumericString(expanded.value);
    if numeric.Failure? {
      return Failure(numeric.error);
    }
    var numericString := numeric.value;
    var latText := Slice(numericString, 0, 8);
    var latPart := ParseInt(latText);
    if latPart.None? {
      return Failure(NotAnInteger(latText));
    }
    var lonText := Slice(numericString, 8, 16);
    var lonPart := ParseInt(lonText);
    if lonPart.None? {
      return Failure(NotAnInteger(lonText));
    }
    r := Success(Transform(Codes(latPart.value, lonPart.value)));
  }

  // ---------------------------------------------------------------------
  // Properties of the whole decoder
  // ---------------------------------------------------------------------

  /** A code that starts with a mark fails instead of raising IndexError. */
  lemma DecodeLeadingMark(code: string)
    requires |code| > 0 && code[0] == MARK
    ensures Decode(code) == Failure(MarkWithoutSymbol)
  {
    ExpandFailsIff(code);
  }

  /** A combined symbol outside the table makes the code fail, naming the
      first such symbol. */
  lemma DecodeFirstInvalidSymbol(code: string, k: nat)
    requires Expand(code).Some? && k < |Expand(code).value|
    requires SymbolValue(Expand(code).value[k]).None?
    requires forall j :: 0 <= j < k ==> SymbolValue(Expand(code).value[j]).Some?
    ensures Decode(code) == Failure(InvalidSymbol(Expand(code).value[k]))
  {
    DigitStringFirstInvalid(Expand(code).value, k);
  }

  /** For a code whose symbols are all in the table, with values `values`:
      decoding succeeds exactly when their digits number more than 8, and then
      gives the first 8 digits as latitude code and the next up to 8 as
      longitude code. */
  lemma DecodeSucceedsIff(code: string, values: seq<nat>)
    requires Expand(code).Some? && |values| == |Expand(code).value|
    requires forall k :: 0 <= k < |values| ==> SymbolValue(Expand(code).value[k]) == Some(values[k])
    ensures AllDigits(DigitsFor(values)) && |DigitsFor(values)| == 2 * |values| + WideCount(values)
    ensures DecodeCodes(code) == SplitCodes(DigitsFor(values))
    ensures Decode(code).Success? <==> 2 * |values| + WideCount(values) > 8
    ensures Decode(code).Success? ==>
              var digits := DigitsFor(values);
              Decode(code) == Success(Transform(Codes(DigitsValue(digits[..8]), DigitsValue(digits[8..Min(16, |digits|)]))))
  {
    DigitStringOfValues(Expand(code).value, values);
    assert forall k :: 0 <= k < |values| ==> SymbolValue(Expand(code).value[k]).value < 1000;
    DigitsForShape(values);
    SplitCodesIff(DigitsFor(values));
  }

  /** Five to eight values below 100 give 10 to 16 digits, which split into
      two base-100 numbers: the first four values and the rest. */
  lemma DigitsForPastFour(values: seq<nat>)
    requires 5 <= |values| <= 8 && forall k :: 0 <= k < |values| ==> values[k] < 100
    ensures |DigitsFor(values)| == 2 * |values|
    ensures SplitCodes(DigitsFor(values)) == Success(Codes(Base100(values[..4]), Base100(values[4..])))
  {
    var lat, lon := values[..4], values[4..];
    assert values == lat + lon;
    DigitsForAppend(lat, lon);
    DigitsForValue(lat);
    DigitsForValue(lon);
    SplitAfterEight(DigitsFor(lat), DigitsFor(lon));
  }

  /** A code of five to eight symbols worth less than 100 decodes, though it
      has only 10 to 14 digits when it has fewer than eight symbols: the
      longitude code is then the base-100 number of the symbols past the
      fourth. */
  lemma TwoDigitCodeDecodes(code: string, values: seq<nat>)
    requires Expand(code).Some? && |Expand(code).value| == |values|
    requires forall k :: 0 <= k < |values| ==> SymbolValue(Expand(code).value[k]) == Some(values[k])
    requires 5 <= |values| <= 8 && forall k :: 0 <= k < |values| ==> values[k] < 100
    ensures DecodeCodes(code) == Success(Codes(Base100(values[..4]), Base100(values[4..])))
    ensures Decode(code) == Success(Transform(Codes(Base100(values[..4]), Base100(values[4..]))))
  {
    DigitStringOfValues(Expand(code).value, values);
    DigitsForPastFour(values);
  }

  /** Eight symbols worth less than 100 each give 16 digits; the latitude code
      is v0*10^6 + v1*10^4 + v2*10^2 + v3 and the longitude code the same over
      v4..v7. */
  lemma EightSymbolCode(code: string, values: seq<nat>)
    requires Expand(code).Some? && |Expand(code).value| == 8 && |values| == 8
    requires forall k :: 0 <= k < 8 ==> SymbolValue(Expand(code).value[k]) == Some(values[k])
    requires forall k :: 0 <= k < 8 ==> values[k] < 100
    ensures DigitString(Expand(code).value) == Success(DigitsFor(values))
    ensures |DigitsFor(values)| == 16
    ensures DecodeCodes(code).Success?
    ensures DecodeCodes(code).value.latPart == values[0] * 1000000 + values[1] * 10000 + values[2] * 100 + values[3]
    ensures DecodeCodes(code).value.lonPart == values[4] * 1000000 + values[5] * 10000 + values[6] * 100 + values[7]
  {
    DigitStringOfValues(Expand(code).value, values);
    DigitsForPastFour(values);
    var lat, lon := values[..4], values[4..];
    Base100OfFour(lat);
    Base100OfFour(lon);
    var latPart, lonPart := Base100(lat), Base100(lon);
    assert DecodeCodes(code) == Success(Codes(latPart, lonPart));
    assert lat[0] == values[0] && lat[1] == values[1] && lat[2] == values[2] && lat[3] == values[3];
    assert latPart == values[0] * 1000000 + values[1] * 10000 + values[2] * 100 + values[3];
    assert lon[0] == values[4] && lon[1] == values[5] && lon[2] == values[6] && lon[3] == values[7];
    assert lonPart == values[4] * 1000000 + values[5] * 10000 + values[6] * 100 + values[7];
  }

  /** Expansion of a concatenation, when the second part does not start
      with a mark, is the concatenation of the expansions. */
  lemma ExpandAppend(a: string, b: string)
    requires Expand(a).Some? && (b == [] || b[0] != MARK)
    ensures Expand(b).Some?
    ensures Expand(a + b) == Some(Expand(a).value + Expand(b).value)
  {
    ExpandFailsIff(b);
    var sa, sb := Expand(a).value, Expand(b).value;
    ExpandSpellsCode(a);
    ExpandSpellsCode(b);
    ExpandWellFormed(a);
    ExpandWellFormed(b);
    ConcatAppend(sa, sb);
    ExpandConcat(sa + sb);
  }

  /** A digit string that succeeds has every symbol in the table. */
  lemma {:induction false} DigitStringValued(symbols: seq<string>)
    requires DigitString(symbols).Success?
    ensures forall k :: 0 <= k < |symbols| ==> SymbolValue(symbols[k]).Some?
  {
    if symbols != [] {
      var init := symbols[..|symbols| - 1];
      DigitStringValued(init);
      assert forall k :: 0 <= k < |init| ==> symbols[k] == init[k];
    }
  }

  /** The digits of two symbol sequences side by side are the digits of
      their concatenation. */
  lemma {:induction false} DigitStringAppend(a: seq<string>, b: seq<string>)
    requires DigitString(a).Success? && DigitString(b).Success?
    ensures DigitString(a + b) == Success(DigitString(a).value + DigitString(b).value)
    decreases |b|
  {
    if b == [] {
      assert a + b == a;
      assert DigitString(a).value + DigitString(b).value == DigitString(a).value;
    } else {
      var init, last := b[..|b| - 1], b[|b| - 1];
      AppendLast(a, b);
      assert DigitString(init).Success? && SymbolValue(last).Some?;
      DigitStringAppend(a, init);
      DigitStringSnoc(init, last);
      DigitStringSnoc(a + init, last);
      AppendAssoc(DigitString(a).value, DigitString(init).value, Zfill2(SymbolValue(last).value));
    }
  }

  /** One more symbol in the table adds its padded value to the digits. */
  lemma DigitStringSnoc(symbols: seq<string>, last: string)
    requires DigitString(symbols).Success? && SymbolValue(last).Some?
    ensures DigitString(symbols + [last]) == Success(DigitString(symbols).value + Zfill2(SymbolValue(last).value))
  {
    assert (symbols + [last])[..|symbols|] == symbols;
  }

  /** Once a code has 16 digits, symbols appended after it are ignored as long
      as they are in the table. */
  lemma DecodeIgnoresTail(code: string, tail: string)
    requires Expand(code).Some? && DigitString(Expand(code).value).Success?
    requires |DigitString(Expand(code).value).value| >= 16
    requires tail == [] || tail[0] != MARK
    requires Expand(tail).Some? && DigitString(Expand(tail).value).Success?
    ensures Decode(code + tail) == Decode(code)
  {
    ExpandAppend(code, tail);
    DigitStringAppend(Expand(code).value, Expand(tail).value);
    TrailingDigitsIgnored(DigitString(Expand(code).value).value, DigitString(Expand(tail).value).value);
  }

  // ---------------------------------------------------------------------
  // Round trip through an encoder
  // ---------------------------------------------------------------------

  function Pow100(n: nat): nat {
    if n == 0 then 1 else 100 * Pow100(n - 1)
  }

  /** The last `n` base-100 digits of `part`, most significant first. */
  function Base100Digits(part: nat, n: nat): (r: seq<nat>)
    ensures |r| == n && forall k :: 0 <= k < n ==> r[k] < 100
  {
    if n == 0 then [] else Base100Digits(part / 100, n - 1) + [part % 100]
  }

  lemma {:induction false} Base100DigitsValue(part: nat, n: nat)
    requires part < Pow100(n)
    ensures Base100(Base100Digits(part, n)) == part
  {
    if n > 0 {
      Base100DigitsValue(part / 100, n - 1);
      var r := Base100Digits(part, n);
      assert r[..n - 1] == Base100Digits(part / 100, n - 1);
    }
  }

  /** A code for two integer codes below 10^8: the table entries at their
      base-100 digits. */
  function EncodeSymbols(codes: Codes): (r: seq<string>)
    requires codes.latPart < Pow100(4) && codes.lonPart < Pow100(4)
    ensures |r| == 8
  {
    var digits := Base100Digits(codes.latPart, 4) + Base100Digits(codes.lonPart, 4);
    seq(8, k requires 0 <= k < 8 => DICT_CHARS[digits[k]])
  }

  function Encode(codes: Codes): string
    requires codes.latPart < Pow100(4) && codes.lonPart < Pow100(4)
  {
    Concat(EncodeSymbols(codes))
  }

  /** Every pair of integer codes below 10^8 has a TH code that decodes back
      to exactly that pair, and to the coordinate the transform gives it. */
  lemma EncodeRoundTrip(codes: Codes)
    requires codes.latPart < Pow100(4) && codes.lonPart < Pow100(4)
    ensures DecodeCodes(Encode(codes)) == Success(codes)
    ensures Decode(Encode(codes)) == Success(Transform(codes))
  {
    var symbols := EncodeSymbols(codes);
    var lat, lon := Base100Digits(codes.latPart, 4), Base100Digits(codes.lonPart, 4);
    var values := lat + lon;
    forall k | 0 <= k < 8
      ensures WellFormed(symbols[k]) && SymbolValue(symbols[k]) == Some(values[k])
    {
      EntryWellFormed(values[k]);
      EntriesAtTheirValue();
    }
    ExpandConcat(symbols);
    DigitStringOfValues(symbols, values);
    DigitsForPastFour(values);
    assert values[..4] == lat && values[4..] == lon;
    Base100DigitsValue(codes.latPart, 4);
    Base100DigitsValue(codes.lonPart, 4);
  }
}

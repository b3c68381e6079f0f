/**
 * The fixed symbol table `dict_chars` of main1.py and the lookup
 * `dict_chars.index(symbol)` the decoder performs on it.
 *
 * The table lists, in order, the ten digits, then the 23 letters that are
 * left once the easily confused I, L and O are dropped, in four variants:
 * plain upper case, upper case with a trailing mark `'`, lower case with a
 * trailing mark, plain lower case.  A symbol's position is its value.
 */
module Alphabet {
  import opened Wrappers

  /** The mark character that binds to the preceding symbol. */
  const MARK: char := '\''

  /** `dict_chars`, entry for entry, in its five groups. */
  const DIGITS: seq<string> := ["0", "1", "2", "3", "4", "5", "6", "7", "8", "9"]
  const UPPER: seq<string> := [
    "A", "B", "C", "D", "E", "F", "G", "H", "J", "K",
    "M", "N", "P", "Q", "R", "S", "T", "U", "V", "W",
    "X", "Y", "Z"
  ]
  const UPPER_MARKED: seq<string> := [
    "A'", "B'", "C'", "D'", "E'", "F'", "G'", "H'", "J'", "K'",
    "M'", "N'", "P'", "Q'", "R'", "S'", "T'", "U'", "V'", "W'",
    "X'", "Y'", "Z'"
  ]
  const LOWER_MARKED: seq<string> := [
    "a'", "b'", "c'", "d'", "e'", "f'", "g'", "h'", "j'", "k'",
    "m'", "n'", "p'", "q'", "r'", "s'", "t'", "u'", "v'", "w'",
    "x'", "y'", "z'"
  ]
  const LOWER: seq<string> := [
    "a", "b", "c", "d", "e", "f", "g", "h", "j", "k",
    "m", "n", "p", "q", "r", "s", "t", "u", "v", "w",
    "x", "y", "z"
  ]
  const DICT_CHARS: seq<string> := DIGITS + UPPER + UPPER_MARKED + LOWER_MARKED + LOWER

  /** Python's `list.index`: the first position holding `x`, or None where
      `x in list` is false. */
  function IndexOf<T(==)>(s: seq<T>, x: T): (r: Option<nat>)
    ensures r.Some? ==> r.value < |s| && s[r.value] == x && x !in s[..r.value]
    ensures r.None? <==> x !in s
  {
    if |s| == 0 then None
    else if s[0] == x then Some(0)
    else
      match IndexOf(s[1..], x)
      case None => None
      case Some(i) =>
        assert s[1..][..i] == s[1..i + 1];
        assert s[..i + 1] == [s[0]] + s[1..i + 1];
        Some(i + 1)
  }

  /** A position holding `x` with no `x` before it is the one `index` finds. */
  lemma IndexOfFirst<T>(s: seq<T>, x: T, p: nat)
    requires p < |s| && s[p] == x && x !in s[..p]
    ensures IndexOf(s, x) == Some(p)
  {
    var q := IndexOf(s, x).value;
    assert forall k :: 0 <= k < p ==> s[k] != x by {
      forall k | 0 <= k < p
        ensures s[k] != x
      {
        assert s[..p][k] == s[k];
      }
    }
    assert forall k :: 0 <= k < q ==> s[k] != x by {
      forall k | 0 <= k < q
        ensures s[k] != x
      {
        assert s[..q][k] == s[k];
      }
    }
  }

  /** The value the decoder gives a combined symbol: its position in the table. */
  function Position(symbol: string): Option<nat>
  {
    IndexOf(DICT_CHARS, symbol)
  }

  /** Rank of `c` among the 23 letters following `first` ('A' or 'a') with
      the I, L and O of that case skipped. */
  function LetterRank(c: char, first: char): (r: Option<nat>)
    ensures r.Some? ==> r.value < 23
  {
    var k := c as int - first as int;
    if 0 <= k < 26 && k != 8 && k != 11 && k != 14 then
      Some(k - (if k > 8 then 1 else 0) - (if k > 11 then 1 else 0) - (if k > 14 then 1 else 0))
    else
      None
  }

  /** A reference definition of a symbol's value, computed from its characters
      rather than by searching the table. */
  function SymbolValue(symbol: string): (r: Option<nat>)
    ensures r.Some? ==> r.value < 102
  {
    if |symbol| == 1 && '0' <= symbol[0] <= '9' then
      Some(symbol[0] as int - '0' as int)
    else if |symbol| == 1 && LetterRank(symbol[0], 'A').Some? then
      Some(10 + LetterRank(symbol[0], 'A').value)
    else if |symbol| == 2 && symbol[1] == MARK && LetterRank(symbol[0], 'A').Some? then
      Some(33 + LetterRank(symbol[0], 'A').value)
    else if |symbol| == 2 && symbol[1] == MARK && LetterRank(symbol[0], 'a').Some? then
      Some(56 + LetterRank(symbol[0], 'a').value)
    else if |symbol| == 1 && LetterRank(symbol[0], 'a').Some? then
      Some(79 + LetterRank(symbol[0], 'a').value)
    else
      None
  }

  /** Each group holds its symbols in rank order, after the groups before it. */
  lemma DigitsAtTheirValue()
    ensures forall k :: 0 <= k < |DIGITS| ==> SymbolValue(DIGITS[k]) == Some(k)
  {
  }

  lemma UpperAtTheirValue()
    ensures forall k :: 0 <= k < |UPPER| ==> SymbolValue(UPPER[k]) == Some(10 + k)
  {
  }

  lemma UpperMarkedAtTheirValue()
    ensures forall k :: 0 <= k < |UPPER_MARKED| ==> SymbolValue(UPPER_MARKED[k]) == Some(33 + k)
  {
  }

  lemma LowerMarkedAtTheirValue()
    ensures forall k :: 0 <= k < |LOWER_MARKED| ==> SymbolValue(LOWER_MARKED[k]) == Some(56 + k)
  {
  }

  lemma LowerAtTheirValue()
    ensures forall k :: 0 <= k < |LOWER| ==> SymbolValue(LOWER[k]) == Some(79 + k)
  {
  }

  /** Every table entry sits at the position its characters give it. */
  lemma EntriesAtTheirValue()
    ensures |DICT_CHARS| == 102
    ensures forall i :: 0 <= i < |DICT_CHARS| ==> SymbolValue(DICT_CHARS[i]) == Some(i)
  {
    DigitsAtTheirValue();
    UpperAtTheirValue();
    UpperMarkedAtTheirValue();
    LowerMarkedAtTheirValue();
    LowerAtTheirValue();
    forall i | 0 <= i < |DICT_CHARS|
      ensures SymbolValue(DICT_CHARS[i]) == Some(i)
    {
      if i < 10 {
        assert DICT_CHARS[i] == DIGITS[i];
      } else if i < 33 {
        assert DICT_CHARS[i] == UPPER[i - 10];
      } else if i < 56 {
        assert DICT_CHARS[i] == UPPER_MARKED[i - 33];
      } else if i < 79 {
        assert DICT_CHARS[i] == LOWER_MARKED[i - 56];
      } else {
        assert DICT_CHARS[i] == LOWER[i - 79];
      }
    }
  }

  /** Two symbols with the same value are the same symbol. */
  lemma SymbolValueInjective(a: string, b: string)
    requires SymbolValue(a).Some? && SymbolValue(a) == SymbolValue(b)
    ensures a == b
  {
    assert |a| == |b| && a[0] == b[0];
    if |a| == 1 {
      assert a == [a[0]] && b == [b[0]];
    } else {
      assert a == [a[0], a[1]] && b == [b[0], b[1]];
    }
  }

  /** A symbol that has a value is a base character, possibly followed by one mark. */
  lemma ValuedSymbolShape(symbol: string)
    requires SymbolValue(symbol).Some?
    ensures 1 <= |symbol| <= 2 && symbol[0] != MARK
    ensures |symbol| == 2 <==> symbol[1..] == [MARK]
  {
  }

  /** The 102 entries are pairwise distinct, so a symbol's position is unique. */
  lemma TableDistinct()
    ensures |DICT_CHARS| == 102
    ensures forall i, j :: 0 <= i < j < |DICT_CHARS| ==> DICT_CHARS[i] != DICT_CHARS[j]
  {
    EntriesAtTheirValue();
  }

  /** Searching the table gives the same value as reading it off the symbol. */
  lemma PositionIsSymbolValue(symbol: string)
    ensures Position(symbol) == SymbolValue(symbol)
  {
    EntriesAtTheirValue();
    match SymbolValue(symbol)
    case Some(v) =>
      SymbolValueInjective(DICT_CHARS[v], symbol);
      assert symbol in DICT_CHARS;
    case None =>
      forall p | 0 <= p < |DICT_CHARS|
        ensures DICT_CHARS[p] != symbol
      {
      }
  }

  /** Every entry is found at its own position. */
  lemma PositionOfEntry(i: nat)
    requires i < |DICT_CHARS|
    ensures Position(DICT_CHARS[i]) == Some(i)
  {
    EntriesAtTheirValue();
    PositionIsSymbolValue(DICT_CHARS[i]);
  }

  /** Each digit is at its own value. */
  lemma DigitPositions()
    ensures forall k :: 0 <= k < 10 ==> Position(DIGITS[k]) == Some(k)
  {
    forall k | 0 <= k < 10
      ensures Position(DIGITS[k]) == Some(k)
    {
      DigitsAtTheirValue();
      PositionIsSymbolValue(DIGITS[k]);
    }
  }

  /** The upper-case group starts at 10. */
  lemma UpperStart()
    ensures Position("A") == Some(10)
  {
    PositionIsSymbolValue("A");
  }

  /** The marked upper-case group starts at 33. */
  lemma UpperMarkedStart()
    ensures Position("A'") == Some(33)
  {
    PositionIsSymbolValue("A'");
  }

  /** The marked lower-case group starts at 56. */
  lemma LowerMarkedStart()
    ensures Position("a'") == Some(56)
  {
    PositionIsSymbolValue("a'");
  }

  /** The lower-case group starts at 79. */
  lemma LowerStart()
    ensures Position("a") == Some(79)
  {
    PositionIsSymbolValue("a");
  }

  /** The last two symbols sit past 99, so their positions have three digits. */
  lemma WidePositions()
    ensures Position("y") == Some(100) && Position("z") == Some(101)
  {
    PositionIsSymbolValue("y");
    PositionIsSymbolValue("z");
  }

  /** Symbols the table does not hold: a dropped letter, a marked digit and
      a doubly marked letter. */
  lemma UnknownSymbols()
    ensures Position("I") == None && Position("0'") == None && Position("A''") == None
  {
    PositionIsSymbolValue("I");
    PositionIsSymbolValue("0'");
    PositionIsSymbolValue("A''");
  }

  /** Neither the empty symbol nor a lone mark is in the table. */
  lemma EmptyAndMarkUnknown()
    ensures Position("") == None && Position([MARK]) == None
  {
    PositionIsSymbolValue("");
    PositionIsSymbolValue([MARK]);
  }
}

# TH-code decoder and spreadsheet enrichment, in Dafny

This project models the core of a small Python service (`main1.py`). The
service reads a spreadsheet and decodes the "TH code" in each row's
"Home Street" column into a latitude and longitude. It writes the result to
a "Lat-Long" column and derives a Google Maps directions link for each row
in a "Web Page" column.

A TH code is decoded by `th_to_lat_lon` in four steps:

1. **Expansion.** The code is split into combined symbols. A `'` mark is
   glued onto the symbol before it.
2. **Lookup.** Each symbol's value is its position in the fixed 102-entry
   table `dict_chars`.
3. **Digit string.** Each position is written with `str(v).zfill(2)`, and
   the results are joined.
4. **Codes and transform.** The digits `[0:8]` and `[8:16]` are read as the
   integers `lat_part` and `lon_part`. Then
   `latitude = (lat_part - 9000000) / 100000` and
   `longitude = (lon_part - 18000000) / 100000`.

Any exception on the way makes the function return `(None, None)`.

Modules:

- `Wrappers` holds `Option` and `Result`.
- `Text` models the Python built-ins the decoder uses: `str`, `zfill`,
  `''.join`, clamping slices and `int`.
- `Alphabet` holds the table, `list.index` (`IndexOf`, `Position`) and a
  closed-form reference value of each symbol (`SymbolValue`). It proves the
  two agree.
- `Decoder` has one specification function per step, ending in `Decode`.
  `ThToLatLon` is an imperative method with the source's two loops, and it
  is proved to return `Decode(code)`.
- `DecoderCases` states what the model gives on concrete codes, including the ones where the code differs from an idealised codec.
- `Enrichment` holds the pandas DataFrame as a class that `ProcessExcel`
  updates in place. `BuildLatLongList` is the loop over the rows.

The model follows the code where it differs from the intended design of
the service:

- Symbols 'y' and 'z' are at positions 100 and 101. They get three digits
  instead of two and are not rejected.
- A digit string of 9 to 15 digits still decodes. Digits after the 16th
  are ignored.
- A missing "Home Street" column makes `process_excel` silently do nothing.
  It is not an error.
- Only the "Invalid TH Code" sentinel is written. A Web Page link is built
  for invalid rows too.
- There is no link shortening anywhere in the code.

The specification functions read a symbol's value from the closed form
`SymbolValue`. `PositionIsSymbolValue` proves that this equals searching
the table, and the method `NumericString` does the search itself, as the
source does.

`Decoder.Encode` is not in the source. It is a reference inverse, used to
show that every pair of integer codes below 10^8 is reachable.

## Model

| member | source | states |
|---|---|---|
| Alphabet.IndexOf | main1.py:45-46 | `list.index`: the first position holding the item, and None exactly when the item is not in the list |
| Alphabet.IndexOfFirst | main1.py:46 | a position holding the item with no earlier occurrence is the position `index` returns |
| Alphabet.EntriesAtTheirValue | main1.py:18-32 | the table has 102 entries, and each entry's closed-form value is its position |
| Alphabet.TableDistinct | main1.py:18-32 | the 102 entries are pairwise distinct |
| Alphabet.SymbolValueInjective | main1.py:18-32 | two symbols with the same value are equal |
| Alphabet.ValuedSymbolShape | main1.py:18-32 | every entry is one non-mark character, optionally followed by a single mark |
| Alphabet.PositionIsSymbolValue | main1.py:45-46 | searching the table gives the closed-form value, including None for every symbol not in the table |
| Alphabet.PositionOfEntry | main1.py:18-32 | every entry is found at its own position |
| Alphabet.DigitPositions | main1.py:19 | each digit maps to itself |
| Alphabet.UpperStart | main1.py:20 | 'A' is at position 10 |
| Alphabet.UpperMarkedStart | main1.py:23 | "A'" is at position 33 |
| Alphabet.LowerMarkedStart | main1.py:26 | "a'" is at position 56 |
| Alphabet.LowerStart | main1.py:29 | 'a' is at position 79 |
| Alphabet.WidePositions | main1.py:31 | 'y' is at 100 and 'z' at 101, past two digits |
| Alphabet.UnknownSymbols | main1.py:45-48 | the dropped letter "I", the marked digit "0'" and the doubly marked "A''" are not in the table |
| Alphabet.EmptyAndMarkUnknown | main1.py:18-32 | neither the empty symbol nor a lone mark is in the table |
| Text.Str | main1.py:46 | `str(v)` of a non-negative int is a non-empty string of digits |
| Text.Slice | main1.py:51-52 | a Python slice clamps its bounds to the string, and is empty past the end or when the upper bound is not above the lower |
| Text.ParseInt | main1.py:51-52 | `int(s)` succeeds exactly on non-empty digit strings |
| Text.StrRoundTrip | main1.py:46-51 | `int(str(v)) == v`, and `str(v)` has 1, 2 or 3 digits for v below 10, 100 and 1000 |
| Text.ZFillValue | main1.py:46 | `zfill` keeps the number the digits denote and pads to at least the width |
| Text.DigitsValueAppend | main1.py:50-51 | the value of joined digit strings is the first value shifted by the second's length, plus the second value |
| Text.DigitsValueBound | main1.py:51-52 | n digits denote a number below 10^n |
| Text.ZerosValue | main1.py:46 | padding zeros denote 0 |
| Text.ConcatAppend | main1.py:50 | `''.join` distributes over concatenation of the parts |
| Decoder.ExpandSpellsCode | main1.py:36-41 | joining the combined symbols gives back the code |
| Decoder.ExpandCountsSymbols | main1.py:36-41 | there is one combined symbol per non-mark character |
| Decoder.ExpandWellFormed | main1.py:36-41 | each combined symbol is one non-mark character followed only by marks |
| Decoder.ExpandFailsIff | main1.py:38-39 | expansion fails (IndexError on `expanded_code[-1]`) exactly when the code starts with a mark |
| Decoder.ExpandSymbol | main1.py:36-41 | appending a well-formed symbol to the code appends it to the expansion |
| Decoder.ExpandConcat | main1.py:36-41 | the expansion of joined well-formed symbols is those symbols |
| Decoder.ExpandAppend | main1.py:36-41 | when the second part does not start with a mark, the expansion of a concatenation is the concatenation of the expansions |
| Decoder.ExpandCode | main1.py:36-41 | the first loop, with the last symbol extended in place, returns `Expand(code)` |
| Decoder.Zfill2Digits | main1.py:46 | a value gives exactly two digits below 100 and three from 100 to 999, denoting the value |
| Decoder.DigitStringStep | main1.py:44-48 | each step of the second loop extends the digits by the symbol's padded value, or fails on that symbol |
| Decoder.DigitStringFailureSticks | main1.py:44-48 | once a symbol has failed, later symbols do not change the failure |
| Decoder.DigitStringOfValues | main1.py:44-50 | symbols with known values give the padded digits of those values |
| Decoder.DigitStringFirstInvalid | main1.py:44-48 | decoding fails on the first symbol outside the table and names it |
| Decoder.DigitStringValued | main1.py:44-48 | a digit string that succeeds has every symbol in the table |
| Decoder.DigitStringAppend | main1.py:44-50 | the digits of concatenated symbol sequences are the concatenated digits |
| Decoder.NumericString | main1.py:43-50 | the second loop and the join return `DigitString(expanded)` |
| Decoder.DigitsForShape | main1.py:46-50 | values below 1000 give two digits each, plus one for each value of 100 or more |
| Decoder.DigitsForValue | main1.py:46-50 | values below 100 give digits denoting their base-100 number |
| Decoder.DigitsForSnoc | main1.py:46-50 | one more value appends its padded digits |
| Decoder.DigitStringSnoc | main1.py:44-50 | one more valued symbol appends its padded position |
| Decoder.DigitsForAppend | main1.py:50 | the digits of concatenated values are the concatenated digits |
| Decoder.Base100OfFour | main1.py:51-52 | four base-100 digits v0..v3 denote v0·10^6 + v1·10^4 + v2·10^2 + v3 |
| Decoder.SplitCodesIff | main1.py:51-52 | the split succeeds exactly when there are more than 8 digits; the codes are then digits [0:8] and [8:min(16, n)]; otherwise `int('')` fails |
| Decoder.SplitAfterEight | main1.py:51-52 | 8 digits followed by 1 to 8 digits split into exactly those two numbers |
| Decoder.TrailingDigitsIgnored | main1.py:51-52 | digits after the 16th do not change the codes |
| Decoder.TransformInverse | main1.py:54-55 | the integer codes can be recovered from the coordinate |
| Decoder.TransformInjective | main1.py:54-55 | distinct codes give distinct coordinates |
| Decoder.TransformExample | main1.py:54-55 | codes 9050000 and 18100000 give (0.5, 1.0); codes 9000000 and 18000000 give (0, 0) |
| Decoder.ThToLatLon | main1.py:34-60 | the imperative decoder returns `Decode(code)`, a Failure wherever the source returns `(None, None)` |
| Decoder.DecodeLeadingMark | main1.py:38-60 | a code starting with a mark fails rather than raising |
| Decoder.DecodeFirstInvalidSymbol | main1.py:44-60 | a symbol outside the table makes the code fail, naming the first such symbol |
| Decoder.DecodeSucceedsIff | main1.py:44-55 | for symbols in the table, decoding succeeds exactly when the digits number more than 8, with the codes read from digits [0:8] and [8:min(16, n)] |
| Decoder.DigitsForPastFour | main1.py:46-52 | five to eight values below 100 split into the base-100 numbers of the first four values and of the rest |
| Decoder.TwoDigitCodeDecodes | main1.py:46-55 | a code of five to eight symbols below 100 decodes even with fewer than 16 digits |
| Decoder.EightSymbolCode | main1.py:46-52 | eight symbols below 100 give 16 digits, with `lat_part` = v0·10^6 + v1·10^4 + v2·10^2 + v3 and `lon_part` the same over v4..v7 |
| Decoder.DecodeIgnoresTail | main1.py:51-52 | once the digits reach 16, appending more valid symbols does not change the result |
| Decoder.Base100Digits | main1.py:46 | the reference encoder's base-100 digits number n, each below 100 |
| Decoder.Base100DigitsValue | main1.py:51-52 | those digits denote the encoded number |
| Decoder.EncodeRoundTrip | main1.py:34-60 | every pair of codes below 10^8 has a TH code that decodes to exactly that pair and its coordinate |
| DecoderCases.ExpandWithoutMarks | main1.py:36-41 | without marks, every character is its own symbol |
| DecoderCases.Zfill2Pair | main1.py:46 | `str(v).zfill(2)` of v below 100 is its two decimal digits |
| DecoderCases.Zfill2Hundred | main1.py:46 | position 100 stays three digits under `zfill(2)` |
| DecoderCases.EmptyCode | main1.py:50-60 | the empty code fails on `int('')` |
| DecoderCases.LeadingMarkCode | main1.py:36-60 | "'A5" fails on the leading mark |
| DecoderCases.ShortCodeDigits | main1.py:36-50 | "A5" expands to "A" and "5", which give the four digits "1005" |
| DecoderCases.ShortCode | main1.py:36-52 | "A5" expands to "A" and "5" and gives the digits "1005"; its empty longitude slice makes it fail |
| DecoderCases.DigitSymbol | main1.py:19 | a digit character is worth its own digit |
| DecoderCases.LeadThenZeros | main1.py:36-46 | a symbol followed by seven zeros has that symbol's padded digits followed by fourteen zeros |
| DecoderCases.FiveSymbols | main1.py:36-46 | "12345" expands to its five characters, worth 1 to 5 |
| DecoderCases.FiveSymbolDigits | main1.py:36-50 | "12345" gives only ten digits, those of the values 1 to 5 |
| DecoderCases.FiveSymbolCode | main1.py:36-52 | with only ten digits, "12345" still decodes, to codes 1020304 and 5 |
| DecoderCases.UnmarkedDigits | main1.py:36-50 | a mark-free code expands to its characters and its digits are those of its characters' values |
| DecoderCases.EightUnmarked | main1.py:36-52 | eight mark-free characters below 100 decode to the base-100 numbers of the first and last four values |
| DecoderCases.ExampleCodes | main1.py:36-52 | "9500JA00" gives `lat_part` 9050000 and `lon_part` 18100000 |
| DecoderCases.ExampleCoordinate | main1.py:34-57 | "9500JA00" decodes to (0.5, 1.0) |
| DecoderCases.ThreeDigitCollision | main1.py:44-52 | "y0000000" and "A0000000" decode to the same codes, 10000000 and 0 |
| DecoderCases.NarrowSplit | main1.py:51-52 | "10" and fourteen zeros slice into the codes 10000000 and 0 |
| DecoderCases.WideDigits | main1.py:36-50 | "y0000000" has the 17 digits "100" and fourteen zeros |
| DecoderCases.NarrowDigits | main1.py:36-50 | "A0000000" has the 16 digits "10" and fourteen zeros |
| DecoderCases.DigitsForZeros | main1.py:46-50 | values that are all zero give twice as many zero digits |
| DecoderCases.DroppedLetterCode | main1.py:44-48 | 'I' is not a symbol, so "I0000000" fails on it |
| DecoderCases.MarkedDigitCode | main1.py:36-48 | "A0'" fails on the marked digit "0'" |
| DecoderCases.DoubleMarkCode | main1.py:36-48 | "A''5" fails on the doubly marked "A''" |
| Enrichment.TrimStart | main1.py:66 | removing leading whitespace keeps a suffix, cuts only whitespace, and leaves no leading whitespace |
| Enrichment.TrimEnd | main1.py:66 | removing trailing whitespace keeps a prefix, cuts only whitespace, and leaves no trailing whitespace |
| Enrichment.StripSlice | main1.py:66 | a stripped name is a slice of the name with only whitespace around it, neither starting nor ending with whitespace |
| Enrichment.StripIdempotent | main1.py:66 | stripping twice is stripping once |
| Enrichment.StripAll | main1.py:66 | every column name is stripped, in order |
| Enrichment.ColumnOf | main1.py:68-70 | a column lookup finds nothing exactly when no column has that name |
| Enrichment.WithColumnEffect | main1.py:77-78 | after `data[name] = values` that column holds the values, every other column is unchanged, and the earlier names are kept in order |
| Enrichment.IndexOfAppend | main1.py:77-78 | adding a column name keeps every earlier lookup and makes the new name findable at the end |
| Enrichment.LatLongColumn | main1.py:69-75 | one Lat-Long entry per row, in row order |
| Enrichment.WebPage | main1.py:78 | a link is the directions prefix followed by its Lat-Long entry |
| Enrichment.WebPageColumn | main1.py:78 | one link per Lat-Long entry, in order |
| Enrichment.Show | main1.py:73 | the entry `f"{lat}, {lon}"` is never "Invalid TH Code", whatever text the floats print as, because it holds a comma and the sentinel does not |
| Enrichment.InvalidIffDecodeFails | main1.py:71-75 | an entry is "Invalid TH Code" exactly when the code does not decode; otherwise it is the decoded coordinate as `f"{lat}, {lon}"` |
| Enrichment.WebPageInjective | main1.py:78 | distinct Lat-Long entries get distinct links |
| Enrichment.AddColumnsEffect | main1.py:68-78 | columns are added exactly when "Home Street" exists; then Lat-Long holds one entry per row, Web Page holds the prefixed entries, and every other column keeps its cells |
| Enrichment.DataFrame.constructor | main1.py:63 | the sheet read into memory, with every column holding `rowCount` cells |
| Enrichment.DataFrame.StripColumnNames | main1.py:66 | the names are replaced by their stripped forms and the cells are unchanged |
| Enrichment.DataFrame.SetColumn | main1.py:77-78 | the frame becomes `WithColumn` of its old contents and stays rectangular |
| Enrichment.BuildLatLongList | main1.py:69-75 | the row loop gives one entry per row: the shown coordinate, or the sentinel when decoding fails |
| Enrichment.ProcessExcel | main1.py:62-81 | the names are always stripped; the sheet would be written exactly when "Home Street" is among them, and then the sheet is `AddColumns` of the stripped sheet, otherwise the stripped sheet unchanged |

## Left out

- The Flask app, its routes, the upload folder and `save_uploaded_file` (main1.py:9-15, 83-106): HTTP and file-system plumbing.
- `pd.read_excel` and `data.to_excel` (main1.py:63, 81): spreadsheet I/O. The frame is a parameter of `ProcessExcel`, and its result `written` says whether `to_excel` would be called.
- Python float division and the `repr` of floats in `f"{lat}, {lon}"` (main1.py:54-55, 73): the coordinate is exact over `real`. The entry keeps the f-string's shape, and the text of each float is the parameter `num`.
- The `print` of the error message (main1.py:59): logging only. The Failure carries the reason instead.
- The unused imports `requests`, `random`, `string` and `threading` (main1.py:4-7): there is no shortening or concurrency code.
- `str(th_code)` of cells that are not text (numbers, empty cells read as NaN) (main1.py:71): cells are modelled as strings, on which `str` is the identity.
- Column names that are not strings, and duplicate column names (main1.py:66-78): a name lookup takes the first match, whereas pandas returns several columns for a duplicated name.
- `int()` accepting signs, surrounding whitespace and underscores (main1.py:51-52): the digit string only ever holds decimal digits, so those paths cannot be reached.

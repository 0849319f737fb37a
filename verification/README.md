# ProgrammingInGo: bit flags, big digits and the statistics page, in Dafny

This project models three small Go programs from *Programming in Go* and
proves properties about the models.

- **Bit flags** (`chapter2/bitflag.go`). A `BitFlag` is an `int`, and three
  constants, `Active`, `Send` and `Receive`, are successive powers of two.
  `String` lists the names of the set flags in declaration order and prints
  `%d(name|name|...)`. When no named bit is set it prints the literal `0()`.
  The model is in module `BitFlag` (`bitflag.dfy`). Decimal numerals, joining
  and splitting are in `Strings` (`strings.dfy`).
- **Big digits** (`bigdigits/bigdigits.go`). The program prints the digits of
  its argument seven rows high, using a fixed table of ten glyphs. A byte
  other than `'0'..'9'` is a fatal error. The model is in module `BigDigits`
  (`bigdigits.dfy`):
  - `Render` is the output as a pure function.
  - `PrintRows` follows the row and column loops of `main`, in the order Go
    runs them.
- **Statistics page** (`chapter2/statistics.go`):
  - `StatisticsInput` (`statistics_input.dfy`) models how the `numbers` form
    field is tokenised and how `processRequest` validates the tokens, all or
    nothing.
  - `Statistics` (`statistics.dfy`) models `median`, `mode` with its
    frequency map, `sortMapByValue`, the order of calls in `getStats`, and the
    branches of `homePage`.
  - `Sorting` (`sorting.dfy`) holds the ascending sort used for
    `sort.Float64s` and for `sort.Sort` on a `pairList`.

How Go constructs are represented:

- Numbers are `real`, an exact-arithmetic abstraction of `float64`.
- `strconv.ParseFloat` is a parameter `parse: string -> Option<real>`, where
  `None` means an error.
- `strconv.FormatFloat(x, 'f', 1, 64)` is a parameter `key: real -> string`.
- A Go map's iteration order is a nondeterministic choice (`:|`) inside a
  method.
- `log.Fatal` and `os.Exit` become `Failure`, a `Some` fatal message or an
  `Ended` page.

Behaviour the model keeps exactly as the code has it:

- **Partial numbers on error.** When a token fails to parse, `processRequest`
  returns the numbers parsed before it (line 89). `ProcessRequest` returns
  them too. Its caller ignores them.
- **Tie-break in `mode`.** Which of several keys with the same maximal count
  `mode` picks depends on map iteration order and an unstable sort. The model
  keeps that freedom and does not fix a tie-break. It proves only that the
  chosen key has a maximal count.
- **Mode of one number.** `mode` of a single number is `1`, the length of the
  list, whatever the number is. The model keeps this as written.

## Model

| member | source | states |
|---|---|---|
| BitFlag.FlagConstants | chapter2/bitflag.go:19-21 | The constants are 1, 2 and 4, each doubling the last. Each selects its own bit and none of the others' bits. |
| BitFlag.NamesExact | chapter2/bitflag.go:25-34 | A declared name is in the list exactly when its bit is set. Every entry is a declared name. Entries follow strictly increasing declaration order, so there are no repeats. |
| BitFlag.NamesMatchReference | chapter2/bitflag.go:25-34 | The three `if` tests build exactly the reference list `Selected`, which filters the declaration table by the set bits. |
| BitFlag.HighBitsIgnored | chapter2/bitflag.go:26-33 | Adding any multiple of 8 leaves each of the three tested bits unchanged, for negative values too. |
| BitFlag.OtherBitsIgnored | chapter2/bitflag.go:26-39 | Bits above the named ones never change the name list, which depends on `flag % 8` alone. |
| BitFlag.NoNamedBitQuirk | chapter2/bitflag.go:35-42 | No named bit is set iff `flag % 8 == 0`, and in exactly that case the output is `0()`, whatever the value. |
| BitFlag.LabelRoundTrip | chapter2/bitflag.go:35-42 | Parsing the output back gives the whole signed value and the name list. When no named bit is set it gives 0 and the empty list instead. |
| BitFlag.InnerEmptyOnlyForZero | chapter2/bitflag.go:35-42 | The text between the parentheses is empty exactly when the output is `0()`. |
| BitFlag.DemoSingleLabels | chapter2/bitflag.go:51-56 | `Active`, `Send`, `Receive` and the zero flag print as `1(Active)`, `2(Send)`, `4(Receive)` and `0()`. |
| BitFlag.ActiveSendLabel | chapter2/bitflag.go:47-49 | `Active\|Send` prints as `3(Active\|Send)`. |
| BitFlag.ActiveReceiveLabel | chapter2/bitflag.go:64 | `Active\|Receive` prints as `5(Active\|Receive)`. |
| BitFlag.AllFlagsLabel | chapter2/bitflag.go:65 | `Active\|Receive\|Send` prints as `7(Active\|Send\|Receive)`: the names follow declaration order, not operand order. |
| BitFlag.UnnamedBitLabel | chapter2/bitflag.go:42 | 8 prints as `0()`, not `8()`. |
| BitFlag.MixedBitsLabel | chapter2/bitflag.go:26-39 | 9 prints as `9(Active)`: the unnamed bit shows in the number but not in the names. |
| BitFlag.NegativeLabel | chapter2/bitflag.go:24-42 | -1, with all 64 bits set, prints as `-1(Active\|Send\|Receive)`. |
| Strings.NatToDecimal | chapter2/bitflag.go:39 | `%d` of a natural number is a non-empty string of decimal digits with no leading zero. |
| Strings.IntRoundTrip | chapter2/bitflag.go:39 | Reading back the `%d` numeral of any integer, negative ones included, gives the integer. |
| Strings.SplitJoin | chapter2/bitflag.go:39 | Splitting `strings.Join(names, "\|")` on `\|` gives back the names, when none of them contains `\|`. |
| BigDigits.GlyphTableShape | bigdigits/bigdigits.go:50-68 | The table has ten glyphs of seven rows. All rows of a glyph have the same width, and those widths are 7, 3, 5, 5, 6, 5, 5, 5, 5, 5. |
| BigDigits.AcceptsOnlyDigits | bigdigits/bigdigits.go:39-40 | With `uint8` wrap-around, the test `0 <= digit && digit <= 9` accepts exactly the bytes `'0'..'9'`, and `digit` is then the digit's value. |
| BigDigits.Render | bigdigits/bigdigits.go:29-47 | Output is produced iff every byte is a digit. Otherwise the error is "invalid whole number". Success is always exactly seven lines. |
| BigDigits.Command | bigdigits/bigdigits.go:24-29 | With no argument the result is the usage error; otherwise it is the rendering of the first argument. |
| BigDigits.PrintRows | bigdigits/bigdigits.go:31-47 | The row and column loops stop with "invalid whole number" before printing any line exactly when a byte is not a digit. Otherwise they print what `Render` returns. |
| BigDigits.PrintRowsWith | bigdigits/bigdigits.go:31-47 | For any ten-glyph table, the loops fail iff a byte is not a digit. They print nothing on failure and seven composed lines otherwise. |
| BigDigits.BuildLine | bigdigits/bigdigits.go:32-45 | The column loop succeeds iff every byte is a digit, and then builds the composed line for its row. |
| BigDigits.LineConcat | bigdigits/bigdigits.go:33-41 | The line for `a + b` is the line for `a` followed by the line for `b`: each digit contributes its glyph row and two spaces, in input order. |
| BigDigits.LineColumn | bigdigits/bigdigits.go:33-41 | The piece of a line at the offset of digit `c` is exactly that digit's glyph row followed by two spaces. |
| BigDigits.RenderLinesEqualWidth | bigdigits/bigdigits.go:41 | Every output line is as long as the sum of the input digits' glyph widths plus two per digit, so all seven lines are equally long. |
| BigDigits.EmptyInputRendersBlankLines | bigdigits/bigdigits.go:31-46 | An empty argument prints seven empty lines. |
| StatisticsInput.Fields | chapter2/statistics.go:87 | Every field is non-empty and contains no white space. |
| StatisticsInput.FieldsKeepNonSpace | chapter2/statistics.go:87 | Concatenated, the fields are exactly the non-space characters of the text, in order. |
| StatisticsInput.FieldsCountRuns | chapter2/statistics.go:87 | The number of fields is the number of places where a run of non-space characters starts. |
| StatisticsInput.FieldsOfWordThen | chapter2/statistics.go:87 | A word followed by the end of the text or by a space is split off whole, as one field, before the fields of the rest. |
| StatisticsInput.SpacesSkipped | chapter2/statistics.go:87 | Leading white space produces no field. With `FieldsOfWordThen` and the empty text having no fields, this fixes every field as a whole maximal run. |
| StatisticsInput.FieldsEmptyIffBlank | chapter2/statistics.go:87 | There are no fields iff the text is all white space. |
| StatisticsInput.FieldsOfJoin | chapter2/statistics.go:87 | Words joined by single spaces split back into the same words. |
| StatisticsInput.Tokens | chapter2/statistics.go:86-87 | After commas become spaces, no token is empty or contains a comma or white space. |
| StatisticsInput.CommaSeparatedTokens | chapter2/statistics.go:86-87 | Three comma-free words separated by `", "` tokenise into exactly those three words. |
| StatisticsInput.SampleTokens | chapter2/statistics.go:86-87 | `1, x, 3` tokenises into `1`, `x`, `3`. |
| StatisticsInput.FirstInvalid | chapter2/statistics.go:87-89 | The index of the first token `ParseFloat` rejects, or the token count. Every earlier token parses. |
| StatisticsInput.Parsed | chapter2/statistics.go:87-91 | The values parsed before the first rejection, one per token, in token order. |
| StatisticsInput.ProcessRequest | chapter2/statistics.go:83-100 | The result is `ok` iff the field is present, has a token and every token parses. The numbers are those parsed before the first rejection. The message quotes the first rejected token and is empty otherwise; a missing or blank field gives `ok` false with an empty message. |
| StatisticsInput.SecondTokenRejected | chapter2/statistics.go:87-89 | In `a, b, c` where `a` parses and `b` does not, validation stops at `b` and the message names `b`. |
| Statistics.Median | chapter2/statistics.go:131-138 | Odd length gives the middle element. Even length gives the mean of the two middle elements (`n/2 - 1` and `n/2`). |
| Statistics.MedianSplitsSorted | chapter2/statistics.go:131-138 | In a sorted non-empty list, at least half of the elements are at most the median and at least half are at least the median. |
| Statistics.EvenMedianExample | chapter2/statistics.go:131-138 | The median of `1, 2, 3, 4` is 2.5. |
| Statistics.FrequenciesCount | chapter2/statistics.go:166-170 | The counting map has a key iff some number has that key, and its count is the number of numbers with that key. |
| Statistics.CountKeys | chapter2/statistics.go:166-170 | The counting loop over the numbers builds exactly the recursive frequency map. |
| Statistics.OccurrencesSum | chapter2/statistics.go:166-170 | Over distinct keys covering every number's key, the occurrence counts add up to the number of numbers. |
| Statistics.CountsSumToLength | chapter2/statistics.go:166-172 | However the frequency map is listed, its counts add up to the number of numbers. |
| Statistics.MapEntries | chapter2/statistics.go:181-186 | The map is copied into a pair list holding each entry exactly once, whatever the iteration order. |
| Statistics.SortMapByValue | chapter2/statistics.go:180-189 | The result lists every entry of the map exactly once, in non-decreasing order of count. |
| Statistics.LastIsLargest | chapter2/statistics.go:171-172 | The last entry of a listing sorted by count has a count at least as large as every key's. |
| Statistics.ModalKey | chapter2/statistics.go:166-172 | The key `mode` picks occurs among the numbers and has a maximal count. |
| Statistics.Mode | chapter2/statistics.go:160-177 | With at most one number the mode is the count itself (0 or 1). Otherwise it is the parsed value of some key with maximal count, and a failure means that key did not parse. When every formatted number parses back, it never fails. |
| Statistics.ModalKeyParses | chapter2/statistics.go:168-175 | A maximal key is the formatted form of one of the numbers, so when every formatted number parses back, the `log.Fatal` in `mode` cannot run. |
| Statistics.UnambiguousMode | chapter2/statistics.go:166-172 | For `5 5 5 6` every choice of maximal key is the key of 5, whatever the tie-break. |
| Sorting.SortBy | chapter2/statistics.go:116 | The result is sorted ascending by the key and is a permutation of the input. |
| Statistics.GetStats | chapter2/statistics.go:114-122 | The numbers are sorted into a permutation of the input. The median and the mode are taken from the sorted list; a single number gives itself as median and 1 as mode. When every formatted number parses back, it always succeeds. |
| Statistics.HomePage | chapter2/statistics.go:67-81 | A form error is shown as is. Otherwise: a rejected token shows its message; a missing or blank field shows a bare page; a valid field shows results over a permutation of the parsed numbers, unless `mode` ends the server. When every formatted number parses back, the server is never ended. |

## Left out

- Serving HTTP is not modelled. This covers `main`'s `ListenAndServe`, the
  parsing of the request body by `ParseForm`, and the HTML constants and
  `formatStats`, which are output formatting with `%v` and `%f`. `HomePage`
  takes the `ParseForm` error and the parsed form as parameters and returns
  which parts of the page are shown.
- `sum`, the mean and `stdDev` are left out: they are floating-point
  arithmetic (`math.Abs`, `math.Pow`, `math.Sqrt`), and `Stats` has no mean or
  standard deviation field.
- Floating point is not modelled. Numbers are exact `real`s: there is no
  rounding in the median's `/ 2`, and no NaN or infinities, so the NaN
  ordering of `sort.Float64s` is not modelled.
- `strconv.ParseFloat` and `strconv.FormatFloat` are uninterpreted
  parameters. The error text of `log.Fatal(err)` in `mode` is replaced by the
  key that failed to parse.
- Sorting.SortBy: it is one fixed stable sort. `sort.Sort` on a `pairList` may
  order equal counts differently, which is why nothing about the mode relies
  on the order of equal counts.
- Statistics.HomePage: it states the results' numbers only up to permutation
  of the parsed values. Their order, median and mode are what
  `Statistics.GetStats` states.
- `os.Args`, the usage text with `filepath.Base`, exit code 1, and the fatal
  message's log prefix become the `Usage` and `InvalidWholeNumber` errors.
  Each printed line is an element of the output list rather than text on
  standard output.
- `range stringOfDigits` in `bigdigits.go` iterates over runes. The model
  checks every byte instead. Both reject exactly the same inputs, because
  every byte of a multi-byte UTF-8 rune is at least 0x80 and fails the
  `digit <= 9` test.
- `strings.Fields` works on UTF-8 bytes. The model splits a Dafny string of
  characters with the same `unicode.IsSpace` set. Invalid UTF-8 is not
  modelled.
- `Active | Send` and the other combinations in the bit-flag demo are written
  as sums. This is equal to the bitwise OR because the bits are disjoint;
  general bitwise OR is not modelled.
- The demo's `fmt.Println(flags)` of an array of three flags is `fmt`'s array
  formatting and is not modelled.

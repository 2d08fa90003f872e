# ferris-says in Dafny

A model of the `ferris-says` library: `say` takes a message, merges its
horizontal white space, wraps it, and writes a speech bubble around the wrapped
lines, followed by the Ferris mascot picture.

The model has five modules:

- `Text` (text.dfy): helpers shared by the rest.
  - `Repeat(c, n)` is what a counted loop of one-character writes appends.
  - `SplitLines` cuts a text into its screen lines at its line feeds.
- `WhiteSpace` (whitespace.dfy): `merge_white_spaces`.
  - The regular expression `([^\S\r\n])+` is written as a left-to-right scan.
  - `HSpace` is its character class: the Unicode White_Space characters other than `\r` and `\n`.
  - Each maximal run of `HSpace` becomes one `' '`.
- `DisplayWidth` (width.dfy): display width and `longest_line`.
  - The width of a character is a parameter `cw`.
  - A string's width is its characters' widths added up.
- `Bubble` (bubble.dfy): a specification of the exact characters `say` writes, as functions.
  - `TopBorder`, `Row` (with its `LeftBracket` and `RightBracket`), `Rows`, `BottomBorder`, `Box` and `Output`.
  - Lemmas about the layout these make on a terminal.
- `FerrisSays` (say.dfy): `say` itself, as the imperative method `Say`.
  - It appends to an output buffer `out` with the same loops as the source.
  - The top and bottom borders are a counted loop of `w + 2` characters.
  - The body has one row per line, and each row has a padding loop from the line's width up to the box width.
  - The method is proved to write exactly `Bubble.Output`.

Three things the source gets from elsewhere are parameters of `FerrisSays.Say`:

- `fillLines`: the wrapping, `textwrap::fill` followed by `str::lines`.
- `cw`: the character widths from the `unicode_width` tables.
- `mascot`: the picture.

The layout lemmas assume two things:

- Each wrapped line holds no line feed (`NoLineFeeds`), as `str::lines` guarantees.
- The eight characters the box is drawn with are one column wide (`NarrowBoxChars`).

An empty message gets no body rows at all.
For the empty string, `textwrap::fill` returns the empty string and
`str::lines` yields no lines. The box is then the two borders `" __\n"` and
`" --"`, whose runs of underscores and dashes are two characters long
(`Bubble.NoLinesOutput`). The model does not add an empty
`< >` row: it renders whatever lines the wrapper yields.

## Model

| member | source | states |
|---|---|---|
| `FerrisSays.Say` | src/lib.rs:69-131 | the method writes exactly `Output(lines, cw, mascot)`, where `lines` are the wrapped lines of the merged input |
| `FerrisSays.WriteEdge` | src/lib.rs:86-91 | a border line after `written`: a space, then `w + 2` copies of the border character, one per loop step; used for both borders |
| `FerrisSays.WriteRows` | src/lib.rs:93-120 | the enumerated loop appends the body rows of all lines, in input order |
| `FerrisSays.WriteRow` | src/lib.rs:94-119 | one iteration appends the left bracket, the line, the padding loop's spaces from the line's width up to the box width, then the right bracket and a line feed |
| `DisplayWidth.Width` | src/lib.rs:105 | the width of a string is 0 when it is empty and at least the width of each of its characters; `WidthConcat` and `WidthRepeat` state how it adds up |
| `DisplayWidth.LongestLine` | src/lib.rs:134-140 | the box width is at least every line's width; it equals the width of some line when there are lines, and it is 0 when there are none |
| `Bubble.LeftBracket` | src/lib.rs:95-103 | a two-character bracket ending in a space, whose first character is `<` exactly when there is one line |
| `Bubble.RightBracket` | src/lib.rs:111-119 | a two-character bracket starting with a space, whose second character is `>` exactly when there is one line |
| `Bubble.Output` | src/lib.rs:86-129 | the bytes `say` writes: the box, then the mascot verbatim; its layout is in `BoxScreenLines`, `BoxBorders`, `BoxRow` and `MascotFollowsBottomBorder` |
| `Bubble.TopBorderShape` | src/lib.rs:86-91 | the top border is `" "`, then `w + 2` underscores, then `"\n"`, so it is `w + 4` characters long |
| `Bubble.BottomBorderShape` | src/lib.rs:122-126 | the bottom border is `" "`, then `w + 2` dashes, with no line feed |
| `Bubble.AngleBracketsOnlyForOneLine` | src/lib.rs:95-119 | `<` and `>` are the brackets exactly when there is one line; every bracket is two characters |
| `Bubble.BracketsOfSeveralLines` | src/lib.rs:95-119 | with two or more lines the first row gets `/ … \`, the last gets `\ … /`, and every other row gets a vertical bar on each side |
| `Bubble.RowTextUnpadded` | src/lib.rs:105-109 | a line no wider than the box is followed by exactly `w - width(line)` spaces |
| `Bubble.RowAligned` | src/lib.rs:105-119 | a row's right bracket starts at column `w + 2` for any line no wider than the box, which every row's line is; the whole row is `w + 4` columns wide |
| `Bubble.BoxScreenLines` | src/lib.rs:86-126 | on screen the box is the top border, then one row text per line in input order, then the bottom border |
| `Bubble.BoxBorders` | src/lib.rs:83-126 | the box has `n + 2` screen lines for `n` lines; the first is the top border line and the last the bottom border |
| `Bubble.BoxRow` | src/lib.rs:94-120 | screen line `i + 1` is line `i` between its brackets and padded to the box width, and it is `w + 4` columns wide |
| `Bubble.BoxLineFeeds` | src/lib.rs:91-126 | the box holds `n + 1` line feeds: one after the top border and one per body row |
| `Bubble.OutputStartsWithTopBorder` | src/lib.rs:86-91 | the output's first `w + 4` characters are the top border |
| `Bubble.MascotFollowsBottomBorder` | src/lib.rs:122-129 | the output ends with the mascot, unchanged, right after the bottom border's last dash |
| `Bubble.OutputScreenLines` | src/lib.rs:6-29 | a mascot that starts with a line feed, as both pictures do, starts on the screen line below the bottom border |
| `Bubble.NoLinesOutput` | src/lib.rs:83-129 | with no lines the output is `" __\n --"` followed by the mascot |
| `Bubble.OneLineOutput` | src/lib.rs:94-120 | one line: the box is as wide as the line, and the only row is `"< " + line + " >\n"` with no padding |
| `Bubble.OneLineRow` | src/lib.rs:94-120 | the body of a one-line box is the single row `"< " + line + " >\n"`, with no padding spaces |
| `Bubble.HelloExample` | src/lib.rs:44-68 | the documented example: "Hello fellow Rustaceans!" gives a box 24 columns wide, borders of 26 underscores and 26 dashes, and the row `< Hello fellow Rustaceans! >` |
| `WhiteSpace.MergeWhiteSpaces` | src/lib.rs:143-146 | the result is never longer than the input and is empty exactly when the input is; what it does to runs and other characters is in `MergeIsMerged`, `MergeKeepsStripped`, `MergeRun`, `MergeOther` and `MergeIdempotent` |
| `WhiteSpace.MergeIsMerged` | src/lib.rs:143-146 | no two horizontal spaces are adjacent in the output, and each one is `' '` |
| `WhiteSpace.MergeKeepsStripped` | src/lib.rs:143-146 | removing every horizontal space from input and output gives the same sequence |
| `WhiteSpace.KeepsOtherCharacters` | src/lib.rs:143-146 | every character other than a horizontal space occurs as often in the output as in the input |
| `WhiteSpace.KeepsLineBreaks` | src/lib.rs:142-146 | every `\n` and every `\r` of the input survives |
| `WhiteSpace.MergeRun` | src/lib.rs:144-145 | a maximal run of horizontal spaces, whichever characters form it, becomes exactly one `' '` |
| `WhiteSpace.MergeOther` | src/lib.rs:144-145 | a character that is not a horizontal space passes through unchanged |
| `WhiteSpace.MergeFixpoint` | src/lib.rs:143-146 | the merge leaves a string unchanged exactly when the string is already merged |
| `WhiteSpace.MergeIdempotent` | src/lib.rs:143-146 | merging twice is the same as merging once |
| `WhiteSpace.MergeExampleRun` | src/lib.rs:143-146 | `"a    b"` becomes `"a b"` |
| `WhiteSpace.MergeExampleLineFeeds` | src/lib.rs:143-146 | `"a\n\nb"` is unchanged: line feeds are neither merged nor turned into spaces |
| `WhiteSpace.MergeExampleAroundLineFeed` | src/lib.rs:143-146 | `"a \t\n \u{3000}b"` becomes `"a \n b"`: the runs on either side of a line feed collapse separately |

## Left out

- Wrapping by `textwrap::fill` and splitting by `str::lines` (src/lib.rs:79-81) are foreign code. Together they are the parameter `fillLines`, and the model does not describe how lines are chosen.
- The `unicode_width` tables (src/lib.rs:105, 137) are foreign data. Every character's width is the parameter `cw`, and a string's width is the sum over its characters. Zero-width joiners and other cases where `unicode_width` does not simply add are not modelled.
- Compiling the regular expression and its `unwrap` (src/lib.rs:144) are library plumbing. Only the replacement is modelled.
- `BufWriter`, flushing and the `?` error propagation of every `write_all` (src/lib.rs:73, 87-129) are I/O. Every write is an append to the buffer that `FerrisSays.Say` returns, and write errors are not modelled.
- The model writes characters, not UTF-8 bytes. `line.as_bytes()` and the mascot byte string are written as the characters they encode.
- The two mascot pictures and the `clippy` feature that picks one (src/lib.rs:6-29) are a build-time constant. The picture is the parameter `mascot`, appended verbatim. Only the fact that both pictures start with a line feed is used, in `Bubble.OutputScreenLines`.
- FerrisSays.Say: does not model the overflow of `actual_width + 2` in `usize`. Widths are unbounded, because no line that wide fits in memory.

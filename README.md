# Product ETL pipeline, modelled in Dafny

This project models the product ETL (extract, transform, load) program in
`src/org/howard/edu/lsp/assignment3`. The program reads a CSV file of products
(id, name, price, category). For each product it does the following:

- It splits each line at commas. A line that does not give exactly four fields becomes a malformed entry.
- It validates each product: the id must be a Java `int` and the price a number.
- It applies the business rules to each valid product:
  - trim the fields;
  - upper-case the name;
  - take 10% off "Electronics";
  - round half up to cents;
  - upgrade expensive Electronics to "Premium Electronics";
  - format the price with two decimals;
  - assign one of the price bands Low, Medium, High or Premium.
- It writes the header, with a "Price Range" column added, and one row per transformed product.
- It reports how many rows it processed, transformed and skipped.

The Dafny modules follow the Java classes:

| module | file | models |
|---|---|---|
| `JavaStrings` | java_strings.dfy | `String.trim`, ASCII `toUpperCase`, `split(",")`, `String.join(",", …)` |
| `JavaNumbers` | java_numbers.dfy | `Integer.parseInt`, plain-decimal `Double.parseDouble`, `String.format("%.2f")` of a whole number of cents |
| `ProductRecord` | product.dfy | Product.java: the record and `isValid` |
| `TransformedRecord` | transformed_product.dfy | TransformedProduct.java: the record and `toCsvRow` |
| `ProductTransformer` | product_transformer.dfy | ProductTransformer.java: `transform`, `assignPriceRange` |
| `CSVReader` | csv_reader.dfy | CSVReader.java: `readHeader`, the `readProducts` loop over the file's lines |
| `CSVWriter` | csv_writer.dfy | CSVWriter.java: the lines `write` builds |
| `ETLPipelineOOP` | etl_pipeline.dfy | ETLPipelineOOP.java: the filter/count loop of `main`, its error paths and its summary |
| `ProductExamples`, `TransformExamples`, `ReaderExamples` | examples_*.dfy | worked instances of the rules on concrete products and lines: validation, transformation and reading |

The modelling choices are these:

- The records are immutable datatypes. The Java fields are final and the getters return them, so a datatype value has the same behaviour.
- The loops of `readProducts`, `write` and `main` are methods with loops. Each method is proved equal to a recursive specification function, and the properties of the program are proved about those functions.
- Prices are exact reals, and rounding gives a whole number of cents, `floor(100·x + 1/2)`. The formatted price is produced from those cents.
- Java's `null` for a malformed row is `None`. The exceptions of the two parsers are also `None`.

One point where the code and its documentation differ:

- The Javadoc of `isValid` (Product.java:80) promises four non-empty fields, but Product.java:87 tests the fields for emptiness *before* trimming. So on its own a whitespace-only name or category passes (`ProductExamples.WhitespaceFieldsAccepted`).
- The reader has already trimmed every field, so inside the pipeline such a row is skipped after all (`ETLPipelineOOP.BlankFieldRowSkipped`).
- The model follows the code: `IsValid` checks the untrimmed text.

## Model

| member | source | states |
|---|---|---|
| JavaStrings.Trim | src/org/howard/edu/lsp/assignment3/CSVReader.java:76-79 | `String.trim` as leading then trailing removal. Its meaning is stated by `TrimSpec`, `TrimEmptyIff`, `TrimmedIsFixed` and `TrimIdempotent`. |
| JavaStrings.TrimShape | src/org/howard/edu/lsp/assignment3/CSVReader.java:76-79 | Cutting a leading run of spaces and control chars from a string and then a trailing run from what is left gives a trimmed middle slice, with only such chars around it. |
| JavaStrings.TrimSpec | src/org/howard/edu/lsp/assignment3/CSVReader.java:76-79 | `trim` keeps a contiguous middle of the string and removes only a leading and a trailing run of chars <= U+0020. The result is trimmed. |
| JavaStrings.TrimEmptyIff | src/org/howard/edu/lsp/assignment3/CSVReader.java:76-79 | `trim` gives "" iff every char is a space or control char. |
| JavaStrings.TrimLeadingSpec | src/org/howard/edu/lsp/assignment3/CSVReader.java:76-79 | Removing leading spaces leaves a suffix. Every removed char is a space or control char, and the rest starts with neither. |
| JavaStrings.TrimTrailingSpec | src/org/howard/edu/lsp/assignment3/CSVReader.java:76-79 | Removing trailing spaces leaves a prefix. Every removed char is a space or control char, and the rest ends with neither. |
| JavaStrings.TrimmedIsFixed | src/org/howard/edu/lsp/assignment3/ProductTransformer.java:30-32 | A string that neither starts nor ends with a space or control char is its own trim. |
| JavaStrings.TrimIdempotent | src/org/howard/edu/lsp/assignment3/ProductTransformer.java:30-32 | Trimming twice is trimming once, so re-trimming already trimmed reader fields changes nothing. |
| JavaStrings.ToUpperCase | src/org/howard/edu/lsp/assignment3/ProductTransformer.java:31 | Upper-casing keeps the length, maps every char by the ASCII upper-case rule, and leaves no lower-case ASCII letter. |
| JavaStrings.ToUpperCaseIdempotent | src/org/howard/edu/lsp/assignment3/ProductTransformer.java:31 | Upper-casing an upper-cased name changes nothing. |
| JavaStrings.JavaSplit | src/org/howard/edu/lsp/assignment3/CSVReader.java:67 | `line.split(",")`. Its meaning is stated by `JavaSplitPieces` and `SplitNoComma`, with the raw pieces characterised by `SplitPieces`, `JoinSplit` and `SplitJoin`. |
| JavaStrings.SplitOnComma | src/org/howard/edu/lsp/assignment3/CSVReader.java:67 | Cutting at commas always gives at least one piece. |
| JavaStrings.SplitPieces | src/org/howard/edu/lsp/assignment3/CSVReader.java:67 | Cutting at commas gives exactly one more piece than there are commas, and no piece contains a comma. |
| JavaStrings.JoinSplit | src/org/howard/edu/lsp/assignment3/CSVReader.java:67 | Joining the comma-separated pieces with commas gives back the original line. |
| JavaStrings.JoinWithComma | src/org/howard/edu/lsp/assignment3/TransformedProduct.java:101 | `String.join(",", …)`. Its meaning is stated by `JoinSplit`, `SplitJoin` and `JoinSize`. |
| JavaStrings.SplitJoin | src/org/howard/edu/lsp/assignment3/TransformedProduct.java:101 | Joining comma-free fields with commas and cutting the result at commas gives back the fields. |
| JavaStrings.JoinSize | src/org/howard/edu/lsp/assignment3/TransformedProduct.java:101 | A comma join is as long as its fields plus one separator between neighbours. Its commas are the fields' commas plus those separators. |
| JavaStrings.SplitCommaFreePrefix | src/org/howard/edu/lsp/assignment3/CSVReader.java:67 | A comma-free prefix only extends the first piece of the split. |
| JavaStrings.StripTrailingEmpty | src/org/howard/edu/lsp/assignment3/CSVReader.java:67 | Dropping trailing empty pieces leaves a prefix. All dropped pieces are empty, and the last piece kept is non-empty. |
| JavaStrings.JavaSplitPieces | src/org/howard/edu/lsp/assignment3/CSVReader.java:67 | `split(",")`: a comma-free line is its single piece. Otherwise the result is the pieces up to the last non-empty one, and every piece left off is empty. |
| JavaStrings.SplitNoComma | src/org/howard/edu/lsp/assignment3/CSVReader.java:67 | A line without a comma is one piece. |
| JavaStrings.CommaFreeCount | src/org/howard/edu/lsp/assignment3/TransformedProduct.java:101 | A comma-free field contributes no comma to a row. |
| JavaNumbers.ParseInt | src/org/howard/edu/lsp/assignment3/Product.java:90-94 | `Integer.parseInt` accepts only an optional sign followed by at least one decimal digit, and only values inside [-2^31, 2^31-1]. The value returned is the signed value of the digits. |
| JavaNumbers.ParseIntAccepts | src/org/howard/edu/lsp/assignment3/Product.java:90-94 | Conversely, every optional sign followed by a non-empty digit run, leading zeros included, whose signed value is an `int` is accepted with that value. |
| JavaNumbers.ParseIntToString | src/org/howard/edu/lsp/assignment3/Product.java:91 | Every `int` written in decimal parses back to itself. |
| JavaNumbers.ParseIntOutOfRange | src/org/howard/edu/lsp/assignment3/Product.java:90-94 | The decimal text of any number outside the `int` range fails to parse. |
| JavaNumbers.NatToString | src/org/howard/edu/lsp/assignment3/ProductTransformer.java:48 | The whole part of a formatted price, and each summary count, is non-empty, all digits, and denotes the number. It starts with '0' exactly for 0, which is written "0", so there is no leading zero. |
| JavaNumbers.IntToString | src/org/howard/edu/lsp/assignment3/ETLPipelineOOP.java:87-89 | The decimal text of a count in the summary: non-empty, with no "." and a leading "-" exactly for a negative count. `ParseIntToString` states that it reads back as the same `int`, and `NatToString` gives its digits. |
| JavaNumbers.Pow10 | src/org/howard/edu/lsp/assignment3/Product.java:96 | The scale of a decimal fraction is positive. |
| JavaNumbers.IndexOfDot | src/org/howard/edu/lsp/assignment3/Product.java:96 | The position found is that of the first '.' of the literal, or its end when there is none. |
| JavaNumbers.NegativeRoundTrip | src/org/howard/edu/lsp/assignment3/ProductTransformer.java:48 | The `%.2f` text of a negative amount of cents, with its '-' sign, parses back as exactly cents / 100. |
| JavaNumbers.IndexOfDotAfter | src/org/howard/edu/lsp/assignment3/ProductTransformer.java:48 | In a formatted price the decimal point comes right after the whole part. |
| JavaNumbers.FormatCents | src/org/howard/edu/lsp/assignment3/ProductTransformer.java:48 | `String.format("%.2f", …)` of a whole number of cents. Its meaning is stated by `FormatCentsShape` (the layout) and `FormatCentsRoundTrip` (the value). |
| JavaNumbers.CentsTextShape | src/org/howard/edu/lsp/assignment3/ProductTransformer.java:48 | The unsigned text of an amount is its canonical whole part, then the first '.', then exactly two digits. |
| JavaNumbers.IndexOfDotAfterMinus | src/org/howard/edu/lsp/assignment3/ProductTransformer.java:48 | A leading '-' moves the first '.' one place along. |
| JavaNumbers.FormatCentsShape | src/org/howard/edu/lsp/assignment3/ProductTransformer.java:48 | `%.2f` writes a '-' exactly for a negative amount, then a whole part of digits with no leading zero ("0" apart), then the first and only '.', then exactly two digits. |
| JavaNumbers.CentsFractionValue | src/org/howard/edu/lsp/assignment3/ProductTransformer.java:48 | The two decimals of `%.2f` are digits that denote the cents part. |
| JavaNumbers.CentsTextParses | src/org/howard/edu/lsp/assignment3/ProductTransformer.java:48 | An unsigned formatted amount reads back as exactly its cents / 100. |
| JavaNumbers.ParseDecimal | src/org/howard/edu/lsp/assignment3/Product.java:96 | `Double.parseDouble` on plain decimal literals. `ParseDecimalAccepts` and `ParseDecimalAcceptsWhole` state which literals it accepts and their value. `ParseDecimalShape` states that it accepts nothing else. |
| JavaNumbers.IndexOfDotInDigits | src/org/howard/edu/lsp/assignment3/Product.java:96 | A run of digits holds no '.', so the first '.' is its end. |
| JavaNumbers.UnsignedPointLiteral | src/org/howard/edu/lsp/assignment3/Product.java:96 | Digits, a '.' and digits, with at least one digit, read as the whole digits plus the fraction digits over their power of ten. |
| JavaNumbers.UnsignedWholeLiteral | src/org/howard/edu/lsp/assignment3/Product.java:96 | A non-empty run of digits reads as the value of the digits. |
| JavaNumbers.SignedLiteral | src/org/howard/edu/lsp/assignment3/Product.java:96 | No sign or a '+' keeps the value of an unsigned literal, and a '-' negates it. |
| JavaNumbers.ParseDecimalAccepts | src/org/howard/edu/lsp/assignment3/Product.java:96 | Every optional sign followed by digits, a '.' and digits, with at least one digit, is accepted with its signed value. Examples are "2.5", ".5", "5." and "-007.125". |
| JavaNumbers.ParseDecimalAcceptsWhole | src/org/howard/edu/lsp/assignment3/Product.java:96 | Every optional sign followed by a non-empty run of digits is accepted with its signed value. |
| JavaNumbers.ParseDecimalShape | src/org/howard/edu/lsp/assignment3/Product.java:96 | Conversely, an accepted literal is an optional sign followed by a text other than "" and "." whose characters are digits except for the first '.'. |
| JavaNumbers.UnsignedLiteral | src/org/howard/edu/lsp/assignment3/Product.java:96 | A literal starting with a digit parses without a sign. |
| JavaNumbers.NegatedLiteral | src/org/howard/edu/lsp/assignment3/Product.java:96 | A leading '-' negates the literal's value. |
| JavaNumbers.FormatCentsRoundTrip | src/org/howard/edu/lsp/assignment3/ProductTransformer.java:48 | The `%.2f` text of any amount of cents, negative ones included, parses back as exactly cents / 100. |
| ProductRecord.IsValid | src/org/howard/edu/lsp/assignment3/Product.java:86-101 | A valid product has a non-empty name and category, and a trimmed id and trimmed price that are non-empty. |
| ProductRecord.ValidIffChecks | src/org/howard/edu/lsp/assignment3/Product.java:86-100 | Valid iff: all four fields are non-empty, the trimmed id parses as an `int`, and the trimmed price parses as a number. There is no further condition. |
| ProductRecord.PriceValue | src/org/howard/edu/lsp/assignment3/ProductTransformer.java:33 | The number `Double.parseDouble(price.trim())` gives. `ParseDecimalAccepts` and `ParseDecimalAcceptsWhole` give its value, and it is defined only for valid products, where the parse succeeds. |
| ProductExamples.ParseOne | src/org/howard/edu/lsp/assignment3/Product.java:91 | "1" is read as the `int` 1. |
| ProductExamples.ParseTwoFifty | src/org/howard/edu/lsp/assignment3/Product.java:96 | "2.50" is read as 2.5. |
| ProductExamples.ParseLeadingZeros | src/org/howard/edu/lsp/assignment3/Product.java:91 | "007" is read as the `int` 7. |
| ProductExamples.ParseMinusFive | src/org/howard/edu/lsp/assignment3/Product.java:96 | "-5" is read as -5. |
| ProductExamples.WhitespaceFieldsAccepted | src/org/howard/edu/lsp/assignment3/Product.java:87-88 | Emptiness is tested before trimming, so a whitespace-only name and category pass. |
| ProductExamples.BlankFieldsRejected | src/org/howard/edu/lsp/assignment3/Product.java:87-93 | An empty name fails the emptiness test. A whitespace-only id fails because it trims to "". |
| ProductExamples.NegativePriceAccepted | src/org/howard/edu/lsp/assignment3/Product.java:86-100 | A negative price and an id with leading zeros are valid. |
| ProductExamples.LetterIdRejected | src/org/howard/edu/lsp/assignment3/Product.java:90-94 | The id "abc" makes the product invalid. |
| ProductExamples.FractionalIdRejected | src/org/howard/edu/lsp/assignment3/Product.java:90-94 | The id "1.5" makes the product invalid. |
| ProductRecord.IdOutOfRangeInvalid | src/org/howard/edu/lsp/assignment3/Product.java:90-94 | Any id whose value lies outside the `int` range (3000000000, say) makes the product invalid. |
| ProductExamples.NonNumericPriceRejected | src/org/howard/edu/lsp/assignment3/Product.java:95-99 | The price "abc" makes the product invalid. |
| TransformedRecord.ToCsvRow | src/org/howard/edu/lsp/assignment3/TransformedProduct.java:100-102 | `toCsvRow`. Its meaning is stated by `RowIsJoin`, `RowSize`, `RowSplitsIntoFields` and `CommaInFieldBreaksRow`. |
| TransformedRecord.RowIsJoin | src/org/howard/edu/lsp/assignment3/TransformedProduct.java:100-102 | The row is `String.join(",", …)` of the five fields in column order. |
| TransformedRecord.RowSize | src/org/howard/edu/lsp/assignment3/TransformedProduct.java:101 | The row's length is the sum of the field lengths plus 4. Its commas are the fields' commas plus 4. |
| TransformedRecord.RowSplitsIntoFields | src/org/howard/edu/lsp/assignment3/TransformedProduct.java:101 | With comma-free fields the row has exactly 4 commas, and cutting it at commas gives back the five fields in order. |
| TransformedRecord.CommaInFieldBreaksRow | src/org/howard/edu/lsp/assignment3/TransformedProduct.java:101 | There is no quoting: a comma inside any field gives the row more than 4 commas, and the row no longer cuts back into the fields. |
| ProductTransformer.RoundToCents | src/org/howard/edu/lsp/assignment3/ProductTransformer.java:41 | `Math.round(x*100)` is the whole number of cents within half a cent of 100·x, with halves rounded up. |
| ProductTransformer.RoundWholeCents | src/org/howard/edu/lsp/assignment3/ProductTransformer.java:41 | A price that is already a whole number of cents is not changed by rounding. |
| ProductTransformer.RoundMonotone | src/org/howard/edu/lsp/assignment3/ProductTransformer.java:41 | A larger price never rounds to fewer cents. |
| ProductTransformer.AssignPriceRange | src/org/howard/edu/lsp/assignment3/ProductTransformer.java:61-71 | Low iff <= 10, Medium iff in (10, 100], High iff in (100, 500], Premium iff > 500. |
| ProductTransformer.DiscountedPrice | src/org/howard/edu/lsp/assignment3/ProductTransformer.java:35-38 | The price after the Electronics discount. Its meaning is stated by `NonElectronicsOnlyRounded` and `ElectronicsDiscounted`. |
| ProductTransformer.RoundedCents | src/org/howard/edu/lsp/assignment3/ProductTransformer.java:41 | `priceRounded` in cents. Its meaning is stated by `RoundToCents`, `NonElectronicsOnlyRounded` and `ElectronicsDiscounted`. |
| ProductTransformer.Transform | src/org/howard/edu/lsp/assignment3/ProductTransformer.java:29-52 | The id is trimmed and the name trimmed and upper-cased. The price is the `%.2f` text of the rounded cents, and the band is that of the rounded price. The category changes, to "Premium Electronics", iff the trimmed category is "Electronics" and the rounded price exceeds 500.00. |
| ProductTransformer.NonElectronicsOnlyRounded | src/org/howard/edu/lsp/assignment3/ProductTransformer.java:35-41 | Outside "Electronics" the price is only rounded, and the trimmed category is kept. |
| ProductTransformer.ElectronicsDiscounted | src/org/howard/edu/lsp/assignment3/ProductTransformer.java:35-46 | An "Electronics" price is 90% of the input, rounded. It is upgraded iff the rounded price exceeds 500.00. |
| ProductTransformer.UpgradeImpliesPremiumBand | src/org/howard/edu/lsp/assignment3/ProductTransformer.java:43-49 | An upgraded category always comes with the Premium band. |
| ProductTransformer.PriceRangeBoundaries | src/org/howard/edu/lsp/assignment3/ProductTransformer.java:61-71 | 10.00 is Low, 100.00 Medium and 500.00 High: each bound belongs to the lower band. |
| CSVReader.ReadHeader | src/org/howard/edu/lsp/assignment3/CSVReader.java:41-44 | The header is "" for an empty file and otherwise the first line unchanged. |
| CSVReader.ParseLine | src/org/howard/edu/lsp/assignment3/CSVReader.java:66-80 | One row of `readProducts`: four pieces give a product of the trimmed pieces, any other count gives null. Its meaning is stated by `ParsedFieldsTrimmed`, `ParseJoinedLine`, `TrailingEmptyPiecesDropped` and `EmptyLineMalformed`. |
| CSVReader.ParsedFieldsTrimmed | src/org/howard/edu/lsp/assignment3/CSVReader.java:75-80 | Every field of a parsed product is already trimmed. |
| CSVReader.ParseJoinedLine | src/org/howard/edu/lsp/assignment3/CSVReader.java:67-80 | Four comma-free pieces, the last non-empty, joined by commas, give the product of the four trimmed pieces in order. |
| CSVReader.TrailingEmptyPiecesDropped | src/org/howard/edu/lsp/assignment3/CSVReader.java:67-73 | Trailing empty pieces are dropped, so four pieces plus any empty ones still give a product. An empty fourth piece gives a malformed entry. |
| CSVReader.EmptyLineMalformed | src/org/howard/edu/lsp/assignment3/CSVReader.java:67-73 | An empty line is one piece, so its entry is malformed. |
| CSVReader.ParseRows | src/org/howard/edu/lsp/assignment3/CSVReader.java:60-84 | There is one entry per line after the header (max(0, n-1) in all), and entry i is the parse of line i+1. |
| CSVReader.ReadProducts | src/org/howard/edu/lsp/assignment3/CSVReader.java:60-84 | The index loop from row 1 returns exactly the entries `ParseRows` describes. |
| CSVWriter.OutputLines | src/org/howard/edu/lsp/assignment3/CSVWriter.java:44-49 | There are products + 1 lines. The first is the header with ",Price Range" appended, and line i+1 is product i's row. |
| CSVWriter.Write | src/org/howard/edu/lsp/assignment3/CSVWriter.java:43-52 | The loop builds exactly the lines `OutputLines` describes, and only the local list grows. |
| CSVWriter.AbsoluteOutputPath | src/org/howard/edu/lsp/assignment3/CSVWriter.java:60-62 | An absolute output path is returned unchanged. A relative one becomes the working directory, one '/' unless the directory already ends with one, and then the output path, with nothing else added. |
| CSVWriter.NoProductsHeaderOnly | src/org/howard/edu/lsp/assignment3/CSVWriter.java:44-49 | An empty product list gives the extended header alone. |
| CSVWriter.OutputReadsBack | src/org/howard/edu/lsp/assignment3/CSVWriter.java:45-49 | Reading the output back gives the extended header as its header. Each row with comma-free fields cuts back into that product's five fields. |
| ETLPipelineOOP.Accepted | src/org/howard/edu/lsp/assignment3/ETLPipelineOOP.java:70 | The negation of `product == null \|\| !product.isValid()`. `RejectedEntrySkipped`, `TransformedInOrder` and `AcceptedIndicesComplete` state what it decides. |
| ETLPipelineOOP.TransformAccepted | src/org/howard/edu/lsp/assignment3/ETLPipelineOOP.java:66-76 | The `transformed` list the loop builds. Its meaning is stated by `TransformedInOrder`, `RejectedEntrySkipped` and `CountsAddUp`, and the loop is tied to it by `TransformRows`. |
| ETLPipelineOOP.SkippedCount | src/org/howard/edu/lsp/assignment3/ETLPipelineOOP.java:66-76 | The final `rowsSkipped`. Its meaning is stated by `CountsAddUp` and `RejectedEntrySkipped`, and the loop is tied to it by `TransformRows`. |
| ETLPipelineOOP.AcceptedIndices | src/org/howard/edu/lsp/assignment3/ETLPipelineOOP.java:66-76 | Every accepted position lies within the entry list. |
| ETLPipelineOOP.CountsAddUp | src/org/howard/edu/lsp/assignment3/ETLPipelineOOP.java:66-76 | Every entry is counted once, as transformed or as skipped, so skipped <= processed. |
| ETLPipelineOOP.AcceptedIndicesIncreasing | src/org/howard/edu/lsp/assignment3/ETLPipelineOOP.java:66-76 | The accepted positions are strictly increasing: the loop keeps input order. |
| ETLPipelineOOP.AcceptedIndicesComplete | src/org/howard/edu/lsp/assignment3/ETLPipelineOOP.java:66-76 | The position of every non-null valid entry is among the accepted positions. |
| ETLPipelineOOP.TransformedInOrder | src/org/howard/edu/lsp/assignment3/ETLPipelineOOP.java:66-76 | Output record k is `transform` of the k-th non-null valid entry, in input order, with one record per such entry. So `transform` is only ever applied to non-null valid products. |
| ETLPipelineOOP.RejectedEntrySkipped | src/org/howard/edu/lsp/assignment3/ETLPipelineOOP.java:70-73 | A null or invalid entry adds nothing to the output and raises the skip count by one. |
| ETLPipelineOOP.BlankFieldRowSkipped | src/org/howard/edu/lsp/assignment3/ETLPipelineOOP.java:70-73 | Because the reader trims first, a four-field line whose name or category is blank is parsed but skipped. |
| ETLPipelineOOP.TransformRows | src/org/howard/edu/lsp/assignment3/ETLPipelineOOP.java:62-76 | `rowsProcessed` is the number of entries, and `rowsSkipped` counts the null or invalid ones. `transformed` is `transform` over the others, in order. `0 <= rowsSkipped <= rowsProcessed` and `|transformed| = rowsProcessed - rowsSkipped` hold throughout. |
| ETLPipelineOOP.OutputFor | src/org/howard/edu/lsp/assignment3/CSVWriter.java:44-51 | The lines handed to `Files.write` for an input file: the extended header, then one line per accepted row. `RunCounts`, `EmptyFileOutput` and `CSVWriter.OutputReadsBack` state their number and content. |
| ETLPipelineOOP.SummaryLines | src/org/howard/edu/lsp/assignment3/ETLPipelineOOP.java:87-90 | The four summary lines. `RunPipeline` and `RunCounts` state which counts they report. |
| ETLPipelineOOP.RunPipeline | src/org/howard/edu/lsp/assignment3/ETLPipelineOOP.java:40-91 | A missing file or a read error prints its message and writes nothing. A write error prints its message and no summary. Otherwise the file gets `OutputFor(lines)`, and the summary reports processed, processed - skipped and skipped, and the output path resolved against the working directory. |
| ETLPipelineOOP.RunCounts | src/org/howard/edu/lsp/assignment3/ETLPipelineOOP.java:87-89 | Processed equals the number of data lines, and skipped <= processed. The output has processed - skipped + 1 lines. |
| ETLPipelineOOP.EmptyFileOutput | src/org/howard/edu/lsp/assignment3/CSVReader.java:41-44 | An empty input file gives the output ",Price Range" alone and counts of zero. |
| TransformExamples.ParseNineNineNineNine | src/org/howard/edu/lsp/assignment3/ProductTransformer.java:33 | "9.999" is read as 9.999. |
| TransformExamples.ParseSixHundred | src/org/howard/edu/lsp/assignment3/ProductTransformer.java:33 | "600" is read as 600. |
| TransformExamples.ParseFiveFiveFive | src/org/howard/edu/lsp/assignment3/ProductTransformer.java:33 | "555" is read as 555. |
| TransformExamples.WidgetValid | src/org/howard/edu/lsp/assignment3/Product.java:86-101 | ("1", "widget", "9.999", "Toys") is valid and priced 9.999. |
| TransformExamples.WidgetRoundsUp | src/org/howard/edu/lsp/assignment3/ProductTransformer.java:29-52 | 9.999 rounds half up to "10.00", in the Low band. The category is kept and the name becomes "WIDGET". |
| TransformExamples.UpperWidget | src/org/howard/edu/lsp/assignment3/ProductTransformer.java:31 | "widget" upper-cases to "WIDGET". |
| TransformExamples.TenDollars | src/org/howard/edu/lsp/assignment3/ProductTransformer.java:48 | 1000 cents are written "10.00". |
| TransformExamples.GadgetValid | src/org/howard/edu/lsp/assignment3/Product.java:86-101 | ("2", "Gadget", "600", "Electronics") is valid and priced 600. |
| TransformExamples.GadgetUpgraded | src/org/howard/edu/lsp/assignment3/ProductTransformer.java:35-49 | 600 Electronics becomes "540.00", "Premium Electronics", band Premium. |
| TransformExamples.FiveHundredForty | src/org/howard/edu/lsp/assignment3/ProductTransformer.java:48 | 54000 cents are written "540.00". |
| TransformExamples.PlayerValid | src/org/howard/edu/lsp/assignment3/Product.java:86-101 | ("3", "Player", "555", "Electronics") is valid and priced 555. |
| TransformExamples.PlayerNotUpgraded | src/org/howard/edu/lsp/assignment3/ProductTransformer.java:35-49 | 555 Electronics becomes "499.50", stays "Electronics", band High. |
| TransformExamples.FourNinetyNineFifty | src/org/howard/edu/lsp/assignment3/ProductTransformer.java:48 | 49950 cents are written "499.50". |
| ReaderExamples.NonNumericPriceStillParsed | src/org/howard/edu/lsp/assignment3/CSVReader.java:69-80 | The reader does not validate: "3,thing,abc,Books" is still a product. |
| ReaderExamples.TrailingCommasAccepted | src/org/howard/edu/lsp/assignment3/CSVReader.java:67-80 | "5,Pen,1.00,Office,," gives the four-field product, because the trailing empty pieces are dropped. |
| ReaderExamples.EmptyLastFieldMalformed | src/org/howard/edu/lsp/assignment3/CSVReader.java:67-73 | "5,Pen,1.00," gives three pieces and is malformed. |
| ReaderExamples.JoinThingRow | src/org/howard/edu/lsp/assignment3/CSVReader.java:67 | "3,thing,abc,Books" is the comma join of its four fields. |
| ReaderExamples.JoinThingTail | src/org/howard/edu/lsp/assignment3/CSVReader.java:67 | "thing,abc,Books" is the comma join of its three fields. |
| ReaderExamples.JoinPenRowWithTrailingCommas | src/org/howard/edu/lsp/assignment3/CSVReader.java:67 | "5,Pen,1.00,Office,," is the comma join of four fields and two empty ones. |
| ReaderExamples.JoinPenTail | src/org/howard/edu/lsp/assignment3/CSVReader.java:67 | "Pen,1.00,Office,," is the comma join of its pieces. |
| ReaderExamples.JoinOfficeTail | src/org/howard/edu/lsp/assignment3/CSVReader.java:67 | "1.00,Office,," is the comma join of its pieces. |
| ReaderExamples.JoinPenRowWithEmptyLast | src/org/howard/edu/lsp/assignment3/CSVReader.java:67 | "5,Pen,1.00," is the comma join of three fields and an empty one. |

## Left out

- File and console I/O are not modelled:
  - `Files.readAllLines` becomes the `ReadOutcome` given to `RunPipeline`.
  - `Files.write` becomes the returned line list plus an optional failure message.
  - The working directory that `toAbsolutePath` resolves against is a parameter of `RunPipeline`.
  - `System.out`/`System.err` become the returned `stdout`/`stderr` lines.
- The source reads the input file twice, once in `readHeader` and once in `readProducts`. The model reads it once, so a file that changes between the two reads is not modelled.
- When `Files.write` fails, the model records no output (`None`). Whatever partial file the failure leaves behind is not modelled.
- IEEE-754 double arithmetic is not modelled: the inexact `* 0.9`, `Math.round` on doubles, and the binary-to-decimal step of `String.format`. Prices are exact reals and rounding is exact. This reaches ordinary prices:
  - The double nearest 1.005, times 100, is just below 100.5. So Java writes a non-Electronics price of "1.005" as "1.00", where the model gives "1.01". Other prices half a cent from a boundary can differ in the same way.
  - `Math.round` returns a `long` and saturates at `Long.MAX_VALUE` cents, so prices above about 9.2e16 are rounded differently. The model's cents are unbounded.
- ProductRecord.IsValid: the price is checked against plain decimal literals only: optional sign, digits, at most one '.', at least one digit. `Double.parseDouble` also accepts the forms below; the model rejects them, so it is stricter than Java for those inputs:
  - exponents;
  - hexadecimal literals;
  - `f`/`d` suffixes;
  - "NaN" and "Infinity".
- Strings are sequences of Unicode scalar values, while Java strings are UTF-16 code units. So the lengths in `JoinSize` and `RowSize` count code points, where Java's `length()` counts a character outside the Basic Multilingual Plane twice. Java strings holding a lone surrogate cannot be represented.
- JavaNumbers.ParseInt: only ASCII digits are accepted. `Integer.parseInt` also accepts other Unicode decimal digits.
- JavaStrings.ToUpperCase: only ASCII letters are upper-cased, and locale rules such as the Turkish dotless i are ignored. `String.format` is modelled with a '.' decimal separator whatever the default locale.
- `String.split` is modelled only for the literal one-comma separator, not for general regular expressions.
- The `rowsProcessed`/`rowsSkipped` counters are Java `int`s. Their overflow beyond 2^31-1 rows is not modelled: the counters are unbounded naturals.
- The input path appears only in the missing-file message, and the output path only in the summary line, through `CSVWriter.AbsoluteOutputPath`. The `CSVReader`/`CSVWriter` path fields and constructors hold nothing else and are not modelled.
- CSVWriter.AbsoluteOutputPath: the working directory is a parameter, assumed absolute with '/' as separator. The path normalisation `Paths.get` performs (repeated or trailing '/', an empty path resolving to the directory itself) and other file systems' separators are not modelled.
- `transform` is deterministic and stateless: `ProductTransformer` has no fields. A Dafny function has both properties by construction, so no lemma states them.
- The getters of both records return their constructor arguments. These are the datatype destructors, so no lemma states them.

# Elven verification model

A Dafny model of five cores of the Elven distribution, with proofs of what each of them promises:

* the **privacy processor**: the SQL scanner that prints a literal-free query shape, the key-value and card
  redaction of free text, the Luhn check, and the recursive sanitizer with its shared item budget;
* the **attestation evidence** script: the canonical JSON text and the comparison of verified predicates with the
  approved policy;
* the **admission injector**: the checks on a Pod and the JSON Patch it answers with;
* the **release publication** script: immutable tags over runs that may stop at any step and be retried;
* the **chunked body reader** of the test sink.

`dafny verify dfyconfig.toml` checks the whole project.

## How it is organised

Code that works by changing things step by step is a method with the source's loops, or a class with the source's
fields, and is proved equal to a specification function (or to a declarative predicate). The properties are lemmas
about those functions. Every byte of a Go or Python byte string is one `char`.

| files | what they hold |
|---|---|
| `Bytes`, `Quoting`, `Decimals`, `FreshKeys` | byte classes, UTF-8, slices, quoted text, decimal numerals, replacement keys |
| `SqlLexicon`, `SqlLocality`, `SqlShape`, `SqlScanner` | the SQL scanner |
| `SqlGrammar`, `SqlSpans`, `SqlDepth`, `SqlFixpoint` | what its spans, depths and shapes are |
| `SqlLiterals`, `SqlParameters`, `SqlExamples` | replacing literals, numbers and parameters |
| `SqlStatements`, `SqlLanguage` | which queries are accepted, and which texts have which shape |
| `Compound`, `Fields`, `QueryRanges`, `Rewriting`, `KeyValues`, `Luhn`, `Cards` | redaction of free text |
| `FieldGrammar` | fields, values and masks as grammars |
| `JsonDepth`, `Sanitizing`, `Sanitizer` | the recursive sanitizer |
| `SanitizingBudget`, `SanitizingNesting`, `SanitizingKeys` | its budget, its levels and masks, its keys |
| `SanitizingDepth`, `SanitizingCuts`, `SanitizingLevels` | its depth limit and what that cuts |
| `SanitizingClasses`, `SanitizingOutputs` | what becomes of every kind of input, and what may leave |
| `KeyOrder`, `Numbers`, `NumberText`, `Canonical`, `CanonicalUnique`, `CanonicalEncoder`, `Predicates` | attestation evidence |
| `CanonicalGrammar`, `CanonicalLimits`, `PredicateEvidence` | its canonical writing, its limits, and what is accepted |
| `JsonPatch`, `Admission`, `AdmissionPatch` | the admission injector |
| `AdmissionEligible`, `AdmissionLaws`, `MountPaths`, `AdmissionCollisions` | which Pods it injects, and what an injection keeps |
| `AdmissionCoherence` | how the parts of an injected Pod fit together |
| `Publication`, `PublicationSafety`, `PublicationOutcome` | the publication protocol, its safety, and what a run leaves |
| `Chunked`, `ChunkedWire`, `ChunkedFraming` | the body reader, the chunked grammar, headers and refusals |

## What is a parameter

* Regular expressions: the key-value pattern is written out for ASCII; card sequences, query ranges and the
  correlation prefix come in as the result of the pattern search, constrained to what the pattern matches. Query
  ranges arrive sorted by their starts, as `sort.Slice` leaves them.
* The key classifiers, `redactText`, `looksLikeJSON`, the decoding layers, JSON decoding and marshalling, and number
  formatting are functions in `Sanitizing.Env`. Nothing is assumed of them, with two exceptions: in
  `DepthNeverCutsText` and `FittingDocumentUncut` the decoder returns only values that stand in its text; and the
  masking half of `MapKeepsEntries` and `ObjectKeepsEntries` takes the replacement keys within reach to be clean, which
  by `NamesAreClean` only says that redaction leaves `elven.redacted_key_<number>` alone, given the limits that
  `processor/elvenprivacyprocessor/config.go:33-38` demands.
* The hash is a function; the statements that name documents by their hash require it to be injective.
* A connection has a plan that says how much each read may return and when the deadline passes.
* A publication run is given the result of the gates, the registry lookups of the preflight, and the fate of every
  later step (it works, it fails before its effect, or after it). A push that fails after its effect has bound the
  tag; a manifest write that fails after its effect leaves an unreadable `release.json`. Lookups are required to be
  truthful where safety needs it, never to be conclusive; the digest read back after a push is the registry's own.
  The tags of a release are distinct.

## What the proofs found

* A query shape is a fixpoint exactly when it is not over the input limit: joining tokens with blanks can make the
  shape longer than the query. `SqlFixpoint.ShapeCanOutgrowTheLimit` gives an accepted query whose shape is rejected.
* The comment on `sqlToken` says that a token's depth is the nesting before it. That fails for closing parentheses and
  for nothing else: `SqlDepth.TokenDepths` gives every depth by counting parentheses, `ClosingDepthIsOutside` an
  accepted query.
* What literals hold and parameters are called does not matter, with two exceptions, both proved exactly and given by
  queries in `SqlExamples`. `:e` right before a quote reads like the prefix of an E-string, so that renaming it can make
  a query be refused (`ParametersMatterExactly`). `.5` right after an identifier character or a dot cannot become `5`,
  which would run into it (`NumbersReadExactly`); a number that starts with a digit never stands so.
* The defensive branch of `redactKeyValues` for a stuck cursor is never taken.
* A swap of neighbouring digits passes the Luhn check exactly when the digits are equal or are a 0 and a 9.
* The flat depth scan protects containers, not scalars: `ScalarCutAfterScan` is a document that passes it and loses its
  scalar. What counts is how deep the values stand to which `native` applies the limit: values masked with or by their
  keys and values inside containers that are too large do not count, values under SQL keys do. `DepthCutsExactly` says
  that the limit changes nothing, under any budget, exactly when the initial depth plus those levels fits and the texts
  in the tested strings fit too; `BeyondLimitIsCut` says what becomes of a value that stands too deep.
* `mountOverlap` compares the path as written. For paths without `..` it finds a related directory exactly when the path
  is written plainly as far as the reserved one goes (`MountOverlapResolved`), so that `//elven-auto` is not seen; with
  `..` it errs both ways (`ParentsAreNotFollowed`).

## Model

| member | source | states |
|---|---|---|
| SqlScanner.ScanBlockComment | processor/elvenprivacyprocessor/sql.go:204-224 | the loop returns the position after the marker that closes a nested comment, and fails on more than 64 openings or at the end of the input |
| SqlScanner.ScanQuote | processor/elvenprivacyprocessor/sql.go:226-259 | the loop with its look-behind for E-strings returns exactly the end of the quoted span, and fails on an ambiguous backslash |
| SqlScanner.ScanDelimiter | processor/elvenprivacyprocessor/sql.go:261-276 | recognises exactly the delimiters of dollar quotes |
| SqlScanner.ScanNumber | processor/elvenprivacyprocessor/sql.go:278-312 | the cursor loops return exactly the end of a numeric literal that does not run into a word or a dot |
| SqlScanner.ScanDollar | processor/elvenprivacyprocessor/sql.go:69-93 | a dollar sign glued to a word is refused; otherwise the end of the dollar-quoted text or parameter, which depends only on the text from the sign on |
| SqlScanner.ScanParameter | processor/elvenprivacyprocessor/sql.go:94-110 | the same for colon and at parameters |
| SqlScanner.ScanWord | processor/elvenprivacyprocessor/sql.go:119-134 | a maximal identifier, shown verbatim unless it is a literal word |
| SqlScanner.ScanStep | processor/elvenprivacyprocessor/sql.go:36-169 | one turn of the loop computes a function of the rest of the input and two look-behind facts |
| SqlScanner.AppendToken | processor/elvenprivacyprocessor/sql.go:29-155 | appending fails exactly on the token budget or on parentheses, and stores the outer depth for both brackets |
| SqlScanner.ScanTokens | processor/elvenprivacyprocessor/sql.go:27-172 | scanning with budget and depth counter interleaved equals lexing everything first and nesting afterwards |
| SqlScanner.SupportedStatement | processor/elvenprivacyprocessor/sql.go:314-378 | the loops decide the supported statement forms, which `SqlStatements.StatementExactly` reads off the words |
| SqlScanner.CheckStatements | processor/elvenprivacyprocessor/sql.go:173-186 | every statement between semicolons is supported, and only a last one may be empty |
| SqlScanner.SanitizeSql | processor/elvenprivacyprocessor/sql.go:23-192 | the scanner returns exactly the specified shape, and nothing for every other input; `SqlLanguage.ShapesExactly` says which texts have which shape |
| SqlLocality.LexAgree | processor/elvenprivacyprocessor/sql.go:36-169 | a step sees at most one character beyond the span it takes, and after a span that ends in neither an identifier character nor a dot it does not see what starts a number or a parameter |
| SqlFixpoint.ShownFixpoint | processor/elvenprivacyprocessor/sql.go:36-191 | scanning the joined token texts of any lexed input gives the same token texts |
| SqlFixpoint.TokensFixpoint | processor/elvenprivacyprocessor/sql.go:23-192 | scanning an accepted query's shape gives the same tokens at the same depths |
| SqlFixpoint.ShapeFixpoint | processor/elvenprivacyprocessor/sql.go:23-192 | a second call returns the first call's output exactly when that is at most the input limit, and nothing otherwise |
| SqlFixpoint.ShapeCanOutgrowTheLimit | processor/elvenprivacyprocessor/sql.go:24-191 | an accepted query whose own shape is rejected |
| SqlGrammar.QuoteEndExact | processor/elvenprivacyprocessor/sql.go:226-259 | the quote scanner ends a span exactly where the grammar of quoted content does |
| SqlGrammar.CommentExact | processor/elvenprivacyprocessor/sql.go:204-224 | the comment scanner stops exactly at the end of a comment of the nested grammar, at most 64 deep |
| SqlGrammar.NumberExact | processor/elvenprivacyprocessor/sql.go:278-312 | the number scanner stops exactly at the end of a hexadecimal, binary or decimal numeral that no word or dot follows |
| SqlSpans.Partition | processor/elvenprivacyprocessor/sql.go:36-191 | an accepted query is cut exactly into blanks, comments, literals, words and marks, each well formed by its own grammar and none able to go on into the next; its shape shows them in order, literals only as question marks |
| SqlLiterals.LiteralsDoNotMatter | processor/elvenprivacyprocessor/sql.go:61-117 | replacing any quoted, dollar-quoted or numeric span of an accepted query by another complete one of its kind leaves the shape unchanged; a number glued to what stands before it keeps its dot |
| SqlLiterals.NumbersReadExactly | processor/elvenprivacyprocessor/sql.go:111-134 | a number put in the place of another is read as that number, and everything else as before, exactly unless it puts a digit where the old one was glued |
| SqlParameters.ParametersMatterExactly | processor/elvenprivacyprocessor/sql.go:69-110 | replacing a parameter by any other leaves the shape unchanged, unless its name was `e` or `E`, the new one is not, and a string that needs the prefix follows at once: exactly then the query is refused |
| SqlExamples.ParameterNameCanMatter | processor/elvenprivacyprocessor/sql.go:226-259 | two queries that differ only in the name of a parameter, the first accepted and the second refused |
| SqlExamples.GluedNumberCanMatter | processor/elvenprivacyprocessor/sql.go:111-134 | two queries that differ only in a number glued to a word, with different shapes |
| SqlDepth.NestExact | processor/elvenprivacyprocessor/sql.go:135-155 | nesting succeeds exactly on balanced texts within the limit, and gives every token its level |
| SqlDepth.TokenDepths | processor/elvenprivacyprocessor/sql.go:11-16 | a token's depth is the number of parentheses opened less those closed before it, less one exactly for a closing one |
| SqlDepth.ClosingDepthIsOutside | processor/elvenprivacyprocessor/sql.go:142-149 | an accepted query in which the closing parenthesis is not at the nesting before it |
| SqlStatements.StatementExactly | processor/elvenprivacyprocessor/sql.go:314-378 | which statements are supported, verb by verb on the words of a statement and its parentheses: the words each verb needs, the first inner verb of WITH and EXPLAIN, no credential word anywhere and the place of the schema object after CREATE, ALTER and DROP, and no other verb |
| SqlStatements.SanitizesExactly | processor/elvenprivacyprocessor/sql.go:23-192 | and with that which queries are accepted: those that lex, are well nested, and whose statements between semicolons are of these forms |
| SqlLanguage.SpansExactly | processor/elvenprivacyprocessor/sql.go:36-169 | the spans of the scanner are blanks, comments, quoted texts, placeholders, numbers, words and signs of a written-out alphabet, with what each shows |
| SqlLanguage.CutExactly | processor/elvenprivacyprocessor/sql.go:36-169 | the scanner cuts a text in one way exactly: a list of spans is its result if and only if they make up the text and each may stand where it does |
| SqlLanguage.ShapesExactly | processor/elvenprivacyprocessor/sql.go:23-192 | a text is the shape of a query exactly when the query has such a cut, well nested and of accepted statements, whose shown texts it joins |
| Compound.CompoundSensitiveEnd | processor/elvenprivacyprocessor/text.go:497-535 | the loop over the 24-element stack returns the end of the balanced term at its start, and fails exactly when there is none |
| Compound.TermExact | processor/elvenprivacyprocessor/text.go:497-535 | the stack machine accepts exactly the printed terms of a recursive quote-aware bracket grammar nested at most 24 deep, so a term's end is unique |
| Fields.FindField | processor/elvenprivacyprocessor/text.go:360-369 | the leftmost key-value match from a position on |
| Fields.SameRun | processor/elvenprivacyprocessor/text.go:22 | a match that starts inside another's key ends where the other does, and none starts inside a separator |
| Fields.QuotedSensitiveEnd | processor/elvenprivacyprocessor/text.go:480-495 | the end of a quoted value, or the end of the text with a failure |
| Fields.NextClearField | processor/elvenprivacyprocessor/text.go:537-553 | the first whitespace whose run is followed by a field: skipping whole runs misses none |
| Fields.EncodedEnd | processor/elvenprivacyprocessor/text.go:460-465 | the first encoded closing bracket, in any letter case |
| Fields.SensitiveValueEnd | processor/elvenprivacyprocessor/text.go:437-478 | where a sensitive value ends, by cases: raw headers, quoted, bracketed, encoded and plain values |
| Fields.NoSuffixSurvives | processor/elvenprivacyprocessor/text.go:467-477 | a masked value ends at the end of the text, at whitespace, or, under a quoted key, at a comma or closing bracket |
| FieldGrammar.FieldExactly | processor/elvenprivacyprocessor/text.go:22 | a field of the pattern is exactly a key of at most 96 characters, perhaps a quote, and `:` or `=` with blanks around it |
| FieldGrammar.QuotedExactly | processor/elvenprivacyprocessor/text.go:480-495 | a quoted value ends exactly after characters, backslash pairs and its quote |
| FieldGrammar.MaskExactly | processor/elvenprivacyprocessor/text.go:383-478 | what a mask replaces and by what, read off the text, both ways: which field it belongs to, where the value ends in every case, and the mask with the quotes of a quoted value |
| KeyValues.MaskValue | processor/elvenprivacyprocessor/text.go:383-397 | the mask replaces the whole value of the field, in the value's own quotes |
| KeyValues.MaskedBounds | processor/elvenprivacyprocessor/text.go:397-400 | the cursor moves strictly past the key, so the defensive branch never fires |
| KeyValues.RedactKeyValues | processor/elvenprivacyprocessor/text.go:354-403 | the output is the input with ordered, disjoint value spans replaced; each replaced span is the whole value of a sensitive field, read from its first key character, outside the query ranges and outside other masked values, and every such field is masked or lies inside a masked value |
| KeyValues.RedactionUnique | processor/elvenprivacyprocessor/text.go:354-403 | so the promise determines the output: public fields are untouched and sensitive ones are not missed |
| QueryRanges.MergeInPlace | processor/elvenprivacyprocessor/text.go:416-426 | merging in the array it reads from equals merging a copy |
| QueryRanges.MergeExact | processor/elvenprivacyprocessor/text.go:416-426 | the merged ranges are separated by gaps and cover exactly what the given ranges cover |
| QueryRanges.Seek | processor/elvenprivacyprocessor/text.go:370-373 | the forward-only index answers exactly whether the key start is in some range |
| Rewriting.RewriteKeeps | processor/elvenprivacyprocessor/text.go:354-403 | every byte outside the replaced spans is still in the output, at the place the replacements move it to |
| Rewriting.RewriteKeepsOrder | processor/elvenprivacyprocessor/text.go:620-656 | the kept bytes keep their order |
| Rewriting.RewritePuts | processor/elvenprivacyprocessor/text.go:390-397 | and the text of every replacement stands in the place of its span |
| Rewriting.RewriteLength | processor/elvenprivacyprocessor/text.go:354-403 | and there is nothing else in the output |
| Luhn.Check | processor/elvenprivacyprocessor/text.go:658-675 | the right-to-left loop computes the positional weighted sum, for every length |
| Luhn.SubstitutionDetected | processor/elvenprivacyprocessor/text.go:658-675 | changing one digit of an accepted number makes it rejected |
| Luhn.TranspositionDetected | processor/elvenprivacyprocessor/text.go:658-675 | exactly which swaps of neighbouring digits are not noticed |
| Luhn.CheckDigitUnique | processor/elvenprivacyprocessor/text.go:658-675 | a payload that is not all zeros has exactly one accepting check digit, an all-zero payload none |
| Cards.LongestCard | processor/elvenprivacyprocessor/text.go:629-644 | the inner loop finds the longest qualifying card number from a start, or there is none |
| Cards.QualifiesExactly | processor/elvenprivacyprocessor/text.go:566-644 | what counts as a card number, read off the text: whole runs of digits, 13 to 19 of them that pass the Luhn check, not touching a name, and no correlation number |
| Cards.DigitsAre | processor/elvenprivacyprocessor/text.go:631-637 | its digits are the digit characters of the span, each once and in order |
| Cards.RedactFormattedCards | processor/elvenprivacyprocessor/text.go:620-656 | the output is the input with disjoint intervals masked; each is the longest card number at its start, and every card number of every matched sequence starts inside one |
| Cards.MaskingUnique | processor/elvenprivacyprocessor/text.go:620-656 | only one list of intervals keeps that promise |
| Cards.RedactionUnique | processor/elvenprivacyprocessor/text.go:620-656 | so the promise determines the output: no other masking meets it |
| FreshKeys.NameInjective | processor/elvenprivacyprocessor/sanitizer.go:163-168 | replacement keys of different indices differ |
| FreshKeys.NameReads | processor/elvenprivacyprocessor/sanitizer.go:163-168 | a replacement key is the prefix and the number of its index |
| FreshKeys.FindFresh | processor/elvenprivacyprocessor/sanitizer.go:186-197 | the unbounded search ends, at the first unused replacement key |
| JsonDepth.JsonDepthAllowed | processor/elvenprivacyprocessor/sanitizer.go:117-143 | the loop with its string flags computes the flat scan |
| JsonDepth.DepthAllowedExact | processor/elvenprivacyprocessor/sanitizer.go:117-143 | on any writing of a JSON tree, with any string escapes, the scan holds exactly when initial depth plus container nesting is within the limit |
| Sanitizer.Sanitizer.Text | processor/elvenprivacyprocessor/sanitizer.go:35-84 | result and budget left are those of the specification, through JSON held in strings, which `SanitizingClasses.TextClasses` gives by what the input is |
| Sanitizer.Sanitizer.SqlText | processor/elvenprivacyprocessor/sanitizer.go:145-161 | the marks and shapes of SQL values |
| Sanitizer.Sanitizer.NativeValue | processor/elvenprivacyprocessor/sanitizer.go:277-345 | the same for decoded JSON values; no text leaves that is not a mark, redacted, or JSON of such |
| Sanitizer.Sanitizer.NativeMap | processor/elvenprivacyprocessor/sanitizer.go:309-332 | the same for objects, never writing a key twice |
| Sanitizer.Sanitizer.NativeSlice | processor/elvenprivacyprocessor/sanitizer.go:333-341 | the same for arrays |
| Sanitizer.Sanitizer.CleanValue | processor/elvenprivacyprocessor/sanitizer.go:215-275 | the same for telemetry values, with the same promise about every text |
| Sanitizer.Sanitizer.CleanMapInto | processor/elvenprivacyprocessor/sanitizer.go:180-207 | the same for attribute maps, never writing a key twice |
| Sanitizer.Sanitizer.CleanSlice | processor/elvenprivacyprocessor/sanitizer.go:263-271 | the same for slices |
| Sanitizer.Sanitizer.CleanAttributes | processor/elvenprivacyprocessor/sanitizer.go:170-178 | the same for a whole attribute map, with its size limit and the same promise |
| SanitizingOutputs.ValueOnlyLeaves | processor/elvenprivacyprocessor/sanitizer.go:215-275 | every text in the output, keys included, is a mark, a redacted text or the JSON of a value of which the same holds, at every level of strings within strings; no other text leaves |
| SanitizingOutputs.NativeOnlyLeaves | processor/elvenprivacyprocessor/sanitizer.go:277-345 | the same for decoded JSON, where a number is one that redaction leaves alone |
| SanitizingOutputs.AttributesOnlyLeave | processor/elvenprivacyprocessor/sanitizer.go:170-178 | the same for a whole attribute map |
| SanitizingClasses.TextClasses | processor/elvenprivacyprocessor/sanitizer.go:35-84 | what becomes of a text, by what it is: a mark, too long, not UTF-8, not decodable, a mark when decoded, plain text, JSON too deep, not parsed or not written |
| SanitizingClasses.SqlClasses | processor/elvenprivacyprocessor/sanitizer.go:145-161 | what becomes of a text under an SQL key, by what it decodes to |
| SanitizingClasses.ValueClasses | processor/elvenprivacyprocessor/sanitizer.go:215-275 | what becomes of every kind of telemetry value, with the budget it takes and, entry by entry, the keys and values of containers |
| SanitizingClasses.NativeClasses | processor/elvenprivacyprocessor/sanitizer.go:277-345 | the same for decoded JSON |
| SanitizingClasses.AttributesClasses | processor/elvenprivacyprocessor/sanitizer.go:170-207 | the same for a whole attribute map |
| SanitizingBudget.TextBudget | processor/elvenprivacyprocessor/sanitizer.go:35-84 | cleaning a text never raises the budget and never takes it below zero |
| SanitizingBudget.TextPaid | processor/elvenprivacyprocessor/sanitizer.go:62-77 | a text that hands on no JSON costs nothing; otherwise its cost pays for everything kept of the JSON it holds |
| SanitizingBudget.NativeBudget | processor/elvenprivacyprocessor/sanitizer.go:277-345 | everything retained of decoded JSON has been charged, and the budget never goes below zero, across the mutual recursion |
| SanitizingBudget.ValueBudget | processor/elvenprivacyprocessor/sanitizer.go:215-275 | everything retained in the output has been charged, and the budget never goes below zero |
| SanitizingBudget.AttributesBounded | processor/elvenprivacyprocessor/sanitizer.go:170-178 | a sanitizer retains at most the configured number of items of an attribute map |
| SanitizingNesting.ValueNests | processor/elvenprivacyprocessor/sanitizer.go:215-275 | the output at a depth nests at most as many containers as there are levels left |
| SanitizingNesting.ValueMasked | processor/elvenprivacyprocessor/sanitizer.go:215-221 | at every level of the output, an entry under a sensitive key of its own holds the mask |
| SanitizingNesting.NativeMasked | processor/elvenprivacyprocessor/sanitizer.go:277-283 | the same for decoded JSON |
| SanitizingNesting.TextMasked | processor/elvenprivacyprocessor/sanitizer.go:35-84 | no value under a sensitive key survives in a text: every text that hands on JSON becomes the writing of a masked value, at every level of strings within strings |
| SanitizingKeys.RedactedExactly | processor/elvenprivacyprocessor/sanitizer.go:163-185 | a key counts as redacted exactly when it is not clean and is not the very replacement key of its index |
| SanitizingKeys.NamesAreClean | processor/elvenprivacyprocessor/config.go:33-38 | under the configured limits the replacement keys in reach are short texts, so they are clean as soon as redaction leaves them alone |
| SanitizingKeys.MapKeepsEntries | processor/elvenprivacyprocessor/sanitizer.go:180-207 | one output entry per input entry, with pairwise distinct keys, in every order of iteration; when the replacement keys in reach are clean, every unclean key takes its value along |
| SanitizingKeys.ObjectKeepsEntries | processor/elvenprivacyprocessor/sanitizer.go:309-332 | the same for JSON objects |
| SanitizingDepth.DepthNeverCutsText | processor/elvenprivacyprocessor/sanitizer.go:62-77 | once the flat scan has passed, the depth limit never cuts a container, at any level of strings within strings |
| SanitizingDepth.ScalarCutAfterScan | processor/elvenprivacyprocessor/sanitizer.go:62-77 | a document that passes the scan and whose scalar is cut by the depth limit |
| SanitizingCuts.TextUncutExactly | processor/elvenprivacyprocessor/sanitizer.go:35-84 | cleaning a text is as if there were no depth test, under every budget, exactly when all values that are tested stand within the limit, at any level of strings within strings |
| SanitizingCuts.ValueUncutExactly | processor/elvenprivacyprocessor/sanitizer.go:277-345 | the same for decoded values under any key |
| SanitizingLevels.FitsByLevels | processor/elvenprivacyprocessor/sanitizer.go:277-345 | tested values stand within the limit exactly when depth plus tested levels fits and the texts in tested strings fit too |
| SanitizingLevels.DepthCutsExactly | processor/elvenprivacyprocessor/sanitizer.go:62-77 | the two together: for a text with JSON, nothing ever changes through the depth limit exactly when depth plus tested levels fits, and so do the texts in tested strings |
| SanitizingLevels.NothingBeyondLimit | processor/elvenprivacyprocessor/sanitizer.go:277-345 | depth plus tested levels fits exactly when no path of unmasked keys leads to a tested value beyond the limit |
| SanitizingLevels.FittingDocumentUncut | processor/elvenprivacyprocessor/sanitizer.go:62-77 | read off the JSON document: when initial depth plus height fits, and so do the texts in its strings, the scan passes and nothing is cut |
| SanitizingLevels.BeyondLimitIsCut | processor/elvenprivacyprocessor/sanitizer.go:277-345 | every tested value beyond the limit is cut, also directly under an SQL key; above the first such value only a budget that does not pay for a container and its items cuts |
| KeyOrder.Sort | scripts/images-attestations.py:83-84 | the keys of a dictionary, each once, in code point order |
| KeyOrder.ListsUnique | scripts/images-attestations.py:83-84 | there is only one such list |
| KeyOrder.LessExactly | scripts/images-attestations.py:83-84 | the order is that of the first code point in which two keys differ, a prefix first |
| Numbers.SameNumberNormal | scripts/images-attestations.py:72-79 | two decimals have the same exact value exactly when their normal forms agree; minus zero is zero |
| NumberText.RenderNormal | scripts/images-attestations.py:76-79 | fixed-point formatting and stripping zeros prints the normal form |
| NumberText.UnsignedInjective | scripts/images-attestations.py:76-79 | the printed digits determine the number |
| CanonicalUnique.QuoteUnique | scripts/images-attestations.py:69-71 | a quoted string can be read back in one way only, surrogate pairs and short escapes included |
| CanonicalUnique.EncUnambiguous | scripts/images-attestations.py:52-93 | two encodable documents have the same canonical text exactly when they are equal as JSON |
| CanonicalGrammar.StringIs | scripts/images-attestations.py:69-71 | the text of a string is the one of the grammar: ASCII, short escapes where there are any, otherwise four small hexadecimal digits, in pairs beyond them |
| CanonicalGrammar.NumberIs | scripts/images-attestations.py:72-79 | the text of a number is the one of the grammar: plain digits, no zeros or point that could go, no sign on zero |
| CanonicalGrammar.ValueIs | scripts/images-attestations.py:52-93 | a text is a canonical writing of a document by the grammar exactly when it is the one that is hashed: single commas and colons, no blanks, keys ascending |
| CanonicalLimits.HashableExactly | scripts/images-attestations.py:59-93 | which documents have a hash, by their places: at most 64 levels and a million places, with texts and numbers that may stand there, and a text of at most 64 MiB |
| CanonicalEncoder.EncodeItem | scripts/images-attestations.py:61-85 | the recursion with its shared budget cell fails exactly outside the limits, and otherwise charges one unit per value and key and returns the canonical text |
| CanonicalEncoder.EncodeObject | scripts/images-attestations.py:82-84 | the same for dictionaries, keys sorted |
| CanonicalEncoder.EncodeList | scripts/images-attestations.py:80-81 | the same for lists |
| CanonicalEncoder.EncodeText | scripts/images-attestations.py:61-71 | the same for texts, refusing unpaired surrogates |
| CanonicalEncoder.CanonicalHash | scripts/images-attestations.py:52-93 | a document has a hash exactly within the limits, and it is the hash of its canonical text, the one of `CanonicalGrammar.ValueIs` |
| CanonicalEncoder.HashIdentifies | scripts/images-attestations.py:52-93 | hashable documents have equal hashes exactly when they are equal as JSON |
| Predicates.Collect | scripts/images-attestations.py:149-161 | the stream is collected with its groups flattened, and refused exactly when it holds more than 64 envelopes |
| Predicates.VerifyPredicates | scripts/images-attestations.py:141-190 | accepts exactly when every envelope is well formed and the set of predicate hashes equals the approved set; `PredicateEvidence.AcceptsExactly` reads both off the policy and the stream |
| Predicates.VerdictIgnoresArrangement | scripts/images-attestations.py:162-190 | within the bound, order, repetition and grouping of the envelopes do not matter |
| Predicates.BothPlatformsNeeded | scripts/images-attestations.py:96-190 | a stream of SPDX envelopes is accepted exactly when it carries both approved documents and nothing else; copies of one never stand in for the other |
| PredicateEvidence.StreamReads | scripts/images-attestations.py:148-161 | the envelopes of a stream are those of its elements in order, a single one for itself and an array for its elements |
| PredicateEvidence.AcceptsExactly | scripts/images-attestations.py:96-190 | a stream is accepted exactly when the policy is one made for three digests and this image, and the stream holds at most 64 envelopes, each a signed attestation of an object about this image alone, with just the hashes approved for its type |
| JsonPatch.EscapeRoundTrip | operator/handler.go:274-276 | reading undoes pointer escaping, for every key |
| JsonPatch.PointerRoundTrip | operator/handler.go:274-276 | any list of keys is read back from the pointer that escaping builds |
| JsonPatch.AddInserts | operator/handler.go:471-476 | adding at an index of a list moves the later items up, adding at `-` appends |
| Admission.ChoosePod | operator/handler.go:278-340 | the loops and checks in source order decide whether a Pod is left alone, chosen or denied |
| Admission.SeeksOtel | operator/handler.go:329-333 | iterating the annotations in any order finds an active foreign instrumentation exactly when there is one |
| Admission.SeeksForeign | operator/handler.go:334-340 | the same for the eight foreign markers |
| Admission.LocateTarget | operator/handler.go:341-394 | the container loop finds the target or the first fault in source order |
| Admission.TargetExact | operator/handler.go:363-387 | a target is found exactly when it is the only selected container and every container is an object without the reserved name |
| Admission.InstrumentationConflict | operator/handler.go:488-530 | the loop with its set of seen names finds the first faulty environment entry, by comparison with all earlier names |
| Admission.SurveyPod | operator/handler.go:395-454 | the checks of volumes, init containers, mounts, platform and service name, first fault first |
| Admission.MakeEnvironment | operator/handler.go:532-549 | the generated environment entries in order |
| Admission.AdmitPod | operator/handler.go:278-486 | the verdict and, entry by entry, the patch, whose effect `AdmissionCoherence.InjectionCoheres` reads off the patched Pod |
| AdmissionPatch.AddToSpec | operator/handler.go:470 | adding a field of the Pod specification replaces that field and nothing else |
| AdmissionPatch.AddToContainer | operator/handler.go:470-478 | adding a field of the target container replaces that field and nothing else |
| AdmissionPatch.AppendAll | operator/handler.go:471-476 | the appending operations put the generated entries after the existing ones, in order |
| AdmissionEligible.InjectsExactly | operator/handler.go:278-454 | a patch is produced exactly for the Pods that opt in, name one selected container and leave the reserved names and places free, stated on the Pod's own fields with every reserved name, word and place written out |
| AdmissionLaws.PatchApplies | operator/handler.go:455-486 | every patch applies to its Pod, with an explicitly given result, for env and annotations absent, null, empty or populated |
| AdmissionLaws.InjectionGrows | operator/handler.go:455-486 | volumes, init containers, mounts and environment grow by the generated entries, annotations gain only the marker, and every other field and container is unchanged |
| AdmissionLaws.MarkedIsLeftAlone | operator/handler.go:326-328 | a Pod with a non-empty marker gets no patch under any configuration |
| AdmissionLaws.InjectionMarks | operator/handler.go:480-484 | an applied patch leaves a non-empty marker |
| AdmissionLaws.AtMostOneInjection | operator/handler.go:278-486 | over any sequence of admissions under any configurations, a Pod is injected at most once |
| MountPaths.MountOverlapExact | operator/handler.go:252-258 | a mount is refused exactly when it is, segment by segment, the reserved path, an ancestor of it or below it |
| MountPaths.MountOverlapResolved | operator/handler.go:252-258 | a mount path without `..` is refused exactly when its directory is related to the reserved one and the path is written plainly as far as that one goes |
| MountPaths.DoubledSlashIsNotSeen | operator/handler.go:252-258 | a mount path that leads to a reserved directory and is not refused |
| MountPaths.ParentsAreNotFollowed | operator/handler.go:252-258 | with `..`, a path that leads to a reserved directory is not refused, and one that leads away from it is |
| AdmissionCollisions.GeneratedNames | operator/handler.go:532-549 | the generated names are distinct, and all of them are names an application may not define |
| AdmissionCollisions.NothingCollides | operator/handler.go:369-440 | after an injection the environment names are pairwise distinct, the volumes and the init container are new, and no existing mount is related to a reserved path as written, nor to its directory when it has no `..` and is written plainly that far |
| AdmissionCoherence.InjectionCoheres | operator/handler.go:455-549 | the parts of an injected Pod fit, looked up by name and path in the patched Pod: the agent's directory is a volume that the unprivileged init container of the chosen runtime fills, the certificate directory the configured secret, both read-only in the target; every generated setting that names a file names one in them, and the other settings have the values promised |
| Publication.Publisher.PreflightRemoteTags | scripts/images-release.py:478-491 | every tag is looked up; the published images are returned exactly when no tag conflicts or is unknown |
| Publication.Publisher.Publish | scripts/images-release.py:494-570 | the registry and the manifest after a run that stops at any step are those of the protocol, which `PublicationOutcome.RunLeaves` gives in closed form |
| PublicationSafety.PublishSafe | scripts/images-release.py:547-570 | the publishing loop, stopped anywhere, rebinds no tag and marks only what is published |
| PublicationSafety.HistorySafe | scripts/images-release.py:478-570 | after any sequence of runs stopped anywhere and of restored manifests, bound tags keep their digests, new tags are the release's own, a run that met a conflicting or inconclusive tag changed nothing, and a verified manifest means that every tag holds its recorded digest and every image is marked |
| PublicationSafety.RunCompletes | scripts/images-release.py:494-570 | with open gates, conclusive truthful lookups and no failing step, a run from any reachable state reaches a verified manifest exactly when every tag is unbound or already at its digest |
| PublicationOutcome.RunLeaves | scripts/images-release.py:494-570 | the registry and the manifest that any run leaves, in closed form: what is pushed and marked up to the first image that does not succeed |
| PublicationOutcome.RunEndsExactly | scripts/images-release.py:494-570 | whatever the steps do, a run ends exactly when it passes its gates and its preflight, every image is pushed or found, read back, verified and written, and the last write works |
| PublicationOutcome.MarksAreEarned | scripts/images-release.py:547-570 | over any history an image is newly marked on disk only by a run in which its tag was read back at its digest and its verification and the write that follows worked |
| Chunked.Connection.ReadPiece | tests/instrumentation-fixtures/sink.py:57-65 | the next bytes of the connection, at most as many as asked for, or 400 at its end or past the deadline |
| Chunked.Connection.ReadExact | tests/instrumentation-fixtures/sink.py:67-71 | however the bytes arrive, exactly the asked number of them is taken |
| Chunked.Connection.ReadChunkLine | tests/instrumentation-fixtures/sink.py:73-83 | the line up to the first line feed, when that follows a carriage return within 1024 bytes, and 400 otherwise |
| Chunked.Connection.ReadTrailers | tests/instrumentation-fixtures/sink.py:101-117 | the trailer loop with its two budgets, whatever the fragmentation |
| Chunked.Connection.ReadChunked | tests/instrumentation-fixtures/sink.py:85-120 | the result depends only on the bytes sent, not on how reads are cut, unless the deadline passes; nothing is read beyond the message |
| Chunked.Connection.ReadBody | tests/instrumentation-fixtures/sink.py:122-139 | the framing that the headers ask for, with its refusals, and a body never over the limit |
| ChunkedWire.Reads | tests/instrumentation-fixtures/sink.py:85-120 | a message within the budgets is read to its last byte and no further, and yields its contents |
| ChunkedWire.AcceptsExactlyMessages | tests/instrumentation-fixtures/sink.py:85-120 | the reader succeeds exactly on the chunked messages within its limits and returns the concatenated chunks |
| ChunkedWire.NoSecondReading | tests/instrumentation-fixtures/sink.py:85-120 | bytes that begin with two messages begin with the same body: the framing is unambiguous |
| ChunkedFraming.FramingExactly | tests/instrumentation-fixtures/sink.py:122-139 | what the headers decide: both framings at once and repeated headers are refused, one `chunked` without surrounding blanks and in any case is read as chunks, one decimal length exactly, and nothing without headers |
| ChunkedFraming.LineExactly | tests/instrumentation-fixtures/sink.py:73-83 | a chunk line is exactly the text up to a first line feed right after a carriage return, at most 1024 bytes |
| ChunkedFraming.AnnouncementExactly | tests/instrumentation-fixtures/sink.py:85-100 | what a chunk line announces and why it is refused, with its status |
| ChunkedFraming.HexOne | tests/instrumentation-fixtures/sink.py:94 | one hexadecimal digit stands for its place among the sixteen, in either case |
| ChunkedFraming.HexConcat | tests/instrumentation-fixtures/sink.py:94 | hexadecimal digits stand for more the further left they are |
| ChunkedFraming.JudgeExactly | tests/instrumentation-fixtures/sink.py:101-117 | what a trailer line does and why it is refused, with its status |
| ChunkedFraming.TrailerExactly | tests/instrumentation-fixtures/sink.py:110-117 | which lines are trailers: a token that frames no message, a colon, and a value without control characters |

## Left out

- Fields.FindField: keys are ASCII; the pattern's Unicode letters and digits are not modelled.
- Fields.EncodedEnd: letter case is folded for ASCII only, as everywhere in the model.
- Cards.RedactFormattedCards: completeness holds within each matched sequence; a card number across two matches of the pattern is outside the claim, because the pattern cuts sequences at 64 bytes.
- Admission.AdmitPod: lower-casing is ASCII only, and the Pod is a parsed tree, so re-encoding of numbers in the patch is outside the claim.
- Publication.Publisher.Publish: the gates are one boolean; validation, signing, attesting and verifying an image are one step that works, fails, or fails after its effect.
- PublicationSafety.HistorySafe: one writer at a time; a registry changed by others between preflight and push is outside the claim.
- The regular expression engine, Unicode tables, `normalizeUnicode`, `decodePercent`, `decodeEscapes` and URL rewriting.
- `redactNumberMatches` and the CPF, CNPJ and e-mail patterns: one pattern search with a filter each.
- `embeddedSQL`: a chain of pattern tests.
- Idempotence of whole texts and trees: an entry with a redacted key is not charged on the first pass but is on the second, so results can differ at the exact item budget.
- JSON decoding and protobuf: the model starts from parsed trees; of repeated object keys the decoder keeps one.
- SHA-256, Cosign, base64, timestamps and scan freshness: gates and signatures are boolean inputs.
- Validation of the injector's configuration file and the HTTP envelope of admission reviews.
- Concurrency limits of the admission server: independent requests share no state.
- Signal traversal in the processor: nested iteration that calls `attributes` and `text` on each part.
- The `elven` command-line tool, `scripts/images-instrumentation.py`, charts, Docker, Kind, Helm, TLS and CI code.
- gzip decoding and certificate checks of the test sink.

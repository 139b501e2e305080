# Definitions generators for the XRPL binary codec

This project models two scripts that do the same job: gen.js and gen.py. Each reads five rippled C++ source files (four headers and SField.cpp) and writes the `definitions.json` document that the XRP Ledger binary codecs use. The document has five sections:

- TYPES: serialized type codes;
- LEDGER_ENTRY_TYPES;
- FIELDS: one descriptor per serialized field;
- TRANSACTION_RESULTS: the TER codes;
- TRANSACTION_TYPES.

What is modelled is everything that happens after the regular expressions have matched:

- the name translators (`translate`, `translate_tx_names` and `translate_tx_types`);
- the decoding of ledger-entry values (`unhex` and the `ANY`/`CHILD` overrides);
- the derivation of field flags;
- the fold that reconstructs implicit result-code values;
- the order and sentinels of every section.

Each script's matches are an input: a sequence of records holding the captured groups, in source order (`Records.Captures`).

Modules:

- `Text`: the string operations the scripts use, with ASCII case mapping. Includes `split`, both `replace` variants (first occurrence in JavaScript, every occurrence in Python) and the JavaScript multi-line `^` anchor.
- `Numerals`: hexadecimal and decimal digit strings, and their round trips.
- `Records`: the matched records, the output records, and the shape of each section (a sentinel, then the matches in order).
- `Names`: the segment-casing rule both translators share. Its `result +=` loop is a method proved against the function that specifies it.
- `Fields`: `isVLEncoded` and the eight legacy field records.
- `ResultCodes`: the `upto`/`last` loop, identical in both scripts. It is a method proved against a fold, with lemmas about the fold.
- `JsGen` and `PyGen`: each script's own tables, translators, `unhex`, field flags and document. They keep separate definitions wherever the scripts differ.
- `Compare`: where the two scripts agree and where they differ.

When `int` raises on a malformed hexadecimal ledger value, gen.py aborts. The model represents that abort as `None`.

## Model

| member | source | states |
|---|---|---|
| Text.SplitJoin | gen.js:63 | splitting a name on `_` and joining the parts with `_` gives the name back |
| Text.SplitParts | gen.py:66 | no part of a split contains `_`, and the parts concatenated are the name with every `_` deleted |
| Text.ReplaceOnce | gen.py:46-48 | when the pattern occurs at most once, replacing the first occurrence and replacing every occurrence agree |
| Text.ReplaceKeepsLength | gen.js:39-41 | a replacement by a word of the same length keeps the length, for both replace variants |
| Numerals.HexRoundTrip | gen.js:98 | reading back the hexadecimal digits of n gives n |
| Numerals.DecimalRoundTrip | gen.py:110 | reading back the decimal digits of n gives n, and they have no leading zero |
| Names.JoinCased | gen.js:63-70 | the `result +=` loop over the parts yields every part, cased by the table or title-cased, concatenated in order |
| Names.CaseSplitShape | gen.py:66-73 | with a table whose values only re-case their keys, the name built from the parts has no `_` and equals the input without underscores up to letter case |
| Names.CaseSegmentsSameTables | gen.py:4-13 | two tables that agree on every segment present build the same name |
| Records.Section | gen.js:80-85 | TYPES and TRANSACTION_TYPES start with the sentinel at -1, then hold one entry per match, translated name and own number, in source order |
| Records.LedgerSection | gen.js:92-110 | LEDGER_ENTRY_TYPES starts with `Invalid` at -1, then holds one entry per match in source order |
| Records.SectionsAgree | gen.py:90-97 | two translators that agree on every matched name give the same section |
| Fields.LegacyFields | gen.js:118-197 | the eight fixed records: none is variable-length, and each is a signing field exactly when it is serialized |
| Fields.LegacyNamesDistinct | gen.py:150-231 | no two legacy records share a name |
| Fields.LegacyCodesDistinct | gen.js:118-197 | no two legacy records share a (type, nth) pair |
| Fields.FieldSection | gen.js:116-238 | FIELDS is the eight legacy records, then one descriptor per match in source order |
| ResultCodes.Run | gen.js:248-264 | every match keeps its name; its value is its explicit one, or -1 for the first, or one more than the previous value; a separator comes exactly before a match whose class differs from the previous one, never before the first |
| ResultCodes.NumberResults | gen.py:289-310 | the loop over `upto` and `last` writes exactly what the fold specifies |
| ResultCodes.CountsUp | gen.js:253-263 | across a run with no explicit value, values go up by exactly the distance between positions |
| ResultCodes.NumberedPrefix | gen.py:292-310 | a match's value and separator depend only on the matches before it |
| ResultCodes.SeparatorsByPrefix | gen.js:255-258 | when each declaration's class is the prefix its name starts with, the blank line stands exactly where the captured prefix (`current`) differs from the previous one |
| ResultCodes.LocalErrorsExample | gen.js:249-264 | `telLOCAL_ERROR = -399` followed by two implicit codes and `temMALFORMED = -299` gives -399, -398, -397, then -299 with a separator |
| JsGen.Translate | gen.js:34-74 | the JavaScript `translate`, written as its chain of early returns, computes `CodecName` |
| JsGen.ExceptionsAreCaseVariants | gen.js:24-31 | every exceptions-table value is its key with some letters re-cased |
| JsGen.CodecNameUint | gen.js:37-41 | a name starting with `UINT` gets `Hash` in place of that prefix when it contains 256, 160 or 128, and `UInt` otherwise; the rest and the length are kept |
| JsGen.CodecNameContainerOverrides | gen.js:42-49 | OBJECT, ARRAY and LEDGERENTRY become STObject, STArray and LedgerEntry |
| JsGen.CodecNameTypeOverrides | gen.js:46-55 | ACCOUNT, VL, NOTPRESENT and PATHSET become AccountID, Blob, NotPresent and PathSet |
| JsGen.CodecNameEntryOverrides | gen.js:44-59 | AMM stays AMM, DIR_NODE becomes DirectoryNode, PAYCHAN becomes PayChannel |
| JsGen.CodecNameUriToken | gen.js:60-61 | URI_TOKEN becomes URIToken |
| JsGen.CodecNameDefault | gen.js:63-70 | past the special cases the name is its cased segments, has no `_`, and equals the input without underscores up to letter case |
| JsGen.TrimSurrounded | gen.js:96 | `trim` removes exactly the white space around a value |
| JsGen.ParseHexLiteral | gen.js:98 | `parseInt` of `0x` followed by any hexadecimal digits, zero-padded or upper-case included, reads their value up to the first character that is not a digit |
| JsGen.UnhexHex | gen.js:96-98 | a hexadecimal literal with any digits, with white space around it and any trailing text that does not start with a digit, is written as the value of its digits |
| JsGen.UnhexBareHex | gen.js:97-98 | a bare hexadecimal literal with any digits is written as their value |
| JsGen.Unhex | gen.js:95-102 | the token is `NaN`, a decimal numeral, or the trimmed capture, which is what it is unless it starts with `0x` or is a quote followed by two more characters; it never starts or ends with white space |
| JsGen.UnhexCharLiteral | gen.js:99-100 | a quoted one-character literal is written as the character's code |
| JsGen.UnhexDecimal | gen.js:101 | a decimal literal is written as it is, surrounding white space aside |
| JsGen.LedgerValue | gen.js:104-110 | ANY is written as -3 and CHILD as -2 whatever was captured; every other match as its decoded value |
| JsGen.Field | gen.js:199-235 | a variable-length field is serialized; a field that is not serialized has nth 1; nth differs from the ordinal only for the four single-slot types; signing depends only on the marker; LEDGERENTRY has nth 1 and is not serialized |
| JsGen.TranslateTxNames | gen.js:275-312 | the renames, the first `PAYCHAN` rewritten, then every segment cased, computes `TxCodecName` |
| JsGen.CleanResultsText | gen.js:246 | the text shrinks by the length of one `[[maybe_unused]]` when it holds one and is unchanged otherwise |
| JsGen.CleanResultsDeletesFirst | gen.js:246 | the deleted text is the leftmost `[[maybe_unused]]`: the text before and after it, later annotations included, is kept |
| Text.ReplaceFirstAt | gen.js:246 | the leftmost occurrence is replaced and the text on either side of it is kept |
| Text.ReplaceAllAt | gen.py:282 | replacing every occurrence replaces the leftmost one, keeps the text before it, and goes on with the text after it |
| Text.ReplaceFirstLength | gen.js:246 | replacing the leftmost occurrence changes the length by the difference of the two words exactly when there is an occurrence |
| Text.ReplaceAllLength | gen.py:282 | replacing every occurrence changes the length by the difference of the two words once per occurrence |
| JsGen.Document | gen.js:79-321 | TYPES starts with `Done` at -1, LEDGER_ENTRY_TYPES with `Invalid` at -1 and TRANSACTION_TYPES with `Invalid` at -1; FIELDS starts with the legacy records; then each section holds one member per match in source order: the translated name with the match's number, decoded value or descriptor; TRANSACTION_RESULTS is the numbering fold over the result matches |
| JsGen.TxCodecNameShape | gen.js:296-307 | a transaction name has no `_` and equals the prepared name without underscores up to letter case |
| PyGen.Translate | gen.py:43-73 | the Python `translate`, written as its chain of early returns, computes `CodecName` |
| PyGen.ExceptionsAreCaseVariants | gen.py:4-13 | every exceptions-table value is its key with some letters re-cased |
| PyGen.CodecNameUint | gen.py:44-48 | a name starting with `UINT` has every `UINT` replaced by `Hash` or `UInt`, keeps its length and holds no `UINT` afterwards |
| PyGen.ReplaceAllRemoves | gen.py:46-48 | replacing every `UINT` by `Hash` or `UInt` leaves no `UINT` behind |
| PyGen.CodecNameContainerOverrides | gen.py:49-54 | OBJECT, ARRAY and LEDGERENTRY become STObject, STArray and LedgerEntry |
| PyGen.CodecNameTypeOverrides | gen.py:51-60 | ACCOUNT, VL, NOTPRESENT and PATHSET become AccountID, Blob, NotPresent and PathSet |
| PyGen.CodecNameEntryOverrides | gen.py:61-64 | DIR_NODE becomes DirectoryNode and PAYCHAN becomes PayChannel |
| PyGen.CodecNameAmm | gen.py:66-73 | AMM, with no override, stays AMM through the table |
| PyGen.CodecNameUriToken | gen.py:66-73 | URI_TOKEN, with no override, becomes URIToken through the table's URI entry |
| PyGen.UriTokenSegments | gen.py:66 | URI_TOKEN splits into URI and TOKEN |
| PyGen.CodecNameDefault | gen.py:66-73 | past the special cases the name is its cased segments, has no `_`, and equals the input without underscores up to letter case |
| PyGen.TypeDeclarations | gen.py:83-89 | the `STYPE(...)` matches are used whenever there is one; the `STI_X = n` matches only when there is none |
| PyGen.Unhex | gen.py:108-111 | a value not starting with `0x` is written as captured, with no trimming |
| PyGen.UnhexVerbatim | gen.py:109-111 | a value not starting with `0` is written as captured |
| PyGen.UnhexHex | gen.py:109-110 | a hexadecimal literal with any digits, zero-padded or upper-case included, followed by the white space `int` skips, is written as the value of its digits. That white space is tab to carriage return, the space, and Unicode white space above U+007E; U+001C-U+001F are not in it |
| PyGen.UnhexRejects | gen.py:110 | `0x` alone, or followed by a character that is neither a digit, `_` nor white space `int` skips (U+001C-U+001F included), makes `int` raise |
| PyGen.UnhexRejectsSeparator | gen.py:110 | a literal whose digits are followed by one of U+001C-U+001F makes `int` raise, even with white space after it |
| PyGen.LedgerValue | gen.py:117-141 | ANY is written as -3 and CHILD as -2 whatever was captured; every other match as its decoded value, if it decodes |
| PyGen.LedgerEntryTypes | gen.py:114-141 | the section exists exactly when every value decodes, and is then the sentinel followed by the matches in order |
| PyGen.Field | gen.py:234-272 | nth is the ordinal; a variable-length field is serialized; a field is signing exactly when it is serialized and not marked `notSigning` |
| PyGen.TranslateTxTypes | gen.py:322-352 | the renames, every `PAYCHAN` rewritten, then per-segment casing or, without `_`, title-casing of the whole name, computes `TxCodecName` |
| PyGen.TxCodecNameShape | gen.py:341-352 | a transaction name has no `_` and equals the prepared name without underscores up to letter case |
| PyGen.Document | gen.py:79-368 | gen.py writes a document exactly when every ledger value decodes |
| PyGen.CleanResultsText | gen.py:282 | the text shrinks by the length of `[[maybe_unused]]` once per occurrence, and text without one is unchanged |
| PyGen.CleanResultsDeletesEach | gen.py:282 | every `[[maybe_unused]]` is deleted: the leftmost one goes, the text before it is kept, and the text after it is cleaned in turn |
| Compare.ExceptionTables | gen.py:4-13 | the Python table is the JavaScript one plus URI and DID |
| Compare.CodecNamesAgree | gen.py:43-73 | with no `UINT` at a line start and no URI or DID segment, both translators give the same name; this includes AMM, which gen.js maps by exact match and gen.py through its table |
| Compare.CodecNamesAgreeOnUint | gen.py:44-48 | a name with a single `UINT`, at its start, is translated alike |
| Compare.CodecNamesDifferOnRepeatedUint | gen.js:39-41 | with two or more `UINT`s, gen.js leaves all but one and gen.py leaves none |
| Compare.CodecNamesDifferOnLaterLine | gen.js:37 | a `UINT` after a line break takes the `UINT` branch in gen.js only |
| Compare.CodecNamesDifferOnDid | gen.py:10 | DID becomes Did in gen.js and stays DID in gen.py |
| Compare.TypesAgree | gen.py:83-97 | without `STYPE` matches, both write the same TYPES when every name either has a single `UINT`, at its start, or has no `UINT` at a line start and no URI or DID segment; this covers the UINT8 to UINT256 type names |
| Compare.UnhexAgreesOnHex | gen.py:108-111 | a hexadecimal literal decodes to the value of its digits in both, zero-padded or upper-case digits included |
| Compare.UnhexPaddedExample | gen.js:95-98 | the zero-padded code `0x0061` is written as 97 by both |
| Compare.UnhexDiffersOnCharLiteral | gen.js:99-100 | a character literal becomes its code in gen.js and stays as captured in gen.py |
| Compare.UnhexDiffersOnLeadingSpace | gen.js:96 | white space before `0x` is trimmed by gen.js; gen.py then writes the value as captured |
| Compare.UnhexDiffersOnMalformedHex | gen.js:98 | `0x` followed by a non-digit gives NaN in gen.js and an exception in gen.py |
| Compare.FieldFlags | gen.py:240-251 | isVLEncoded always agrees; nth differs exactly for single-slot types with an ordinal other than 1; isSerialized differs exactly for METADATA; isSigningField differs exactly for single-slot types not marked `notSigning` |
| Compare.CleanResultsAgree | gen.py:282 | with at most one `[[maybe_unused]]` in TER.h, both clean the text alike |
| Compare.DocumentsShareResults | gen.py:289-310 | given the same matches, whenever gen.py writes a document, its TRANSACTION_RESULTS and legacy fields equal gen.js's |
| Compare.TxNamesAgree | gen.py:343-351 | a transaction name whose prepared form has a `_`, at most one PAYCHAN, and no URI or DID segment is translated alike |
| Compare.TxNamesDifferOnAmm | gen.py:352 | the transaction name AMM becomes Amm in gen.py and stays AMM in gen.js |

## Left out

- Command-line arguments, the usage message and the exit code (gen.js:1-5, gen.py:15-17): process plumbing.
- Reading the five rippled source files (gen.js:16-22, gen.py:24-39): file I/O.
- The regular expressions that scan the source files. Each extractor is modelled by its sequence of matches, in source order: `Records.Captures`. The text cleaned by `CleanResultsText` is not rescanned.
- The printed layout: indentation, trailing commas, the literal text of the legacy-field block and the blank line between result classes. The blank line is the `separatorBefore` flag.
- The try/catch in gen.js's translators (gen.js:71-73, 309-311): the translators are total functions.
- Letter case: `toUpperCase`/`upper` and `toLowerCase`/`lower` are modelled on ASCII letters only. The names in rippled's source files are made of `A-Z`, digits and `_`, although the scripts' patterns would also capture other text.
- JsGen.Unhex: JavaScript numbers are doubles. Values of 2^53 and above lose precision, and values of 10^21 and above print in exponent form. The model writes the exact decimal value.
- JsGen.Unhex: `charCodeAt` and `length` count UTF-16 code units. The model counts characters, which differs only outside the Basic Multilingual Plane.
- PyGen.Unhex: `int` also accepts non-ASCII Unicode digits. The model accepts only ASCII hexadecimal digits.
- PyGen.Unhex: `str` of a value with more than 4300 decimal digits raises `ValueError` on Python versions that limit integer-to-string conversion (3.11 and later, and the releases the limit was backported to). The model writes the exact decimal value of any length.
- The JavaScript exceptions table is a plain object, so a key such as `constructor` would be found on its prototype. The model treats it as a plain map, which matters for no upper-case name.
- Captured numbers are taken as integers. This covers the ordinal, the type and transaction codes, and the explicit result value. gen.js keeps `upto` as the captured string until `upto++` (gen.js:254, 263), and both scripts print the ordinal's digits as captured. A capture such as `--1`, which `int` would reject, is not modelled.
- The TER fold is modelled once: with integer captures the two scripts run the same loop (gen.js:249-264, gen.py:289-310).
- Compare.DocumentsShareResults: both documents are built from the same matches. The two scripts scan different TER.h text once it holds two or more `[[maybe_unused]]`: gen.js deletes only the first (gen.js:246) and gen.py deletes all of them (gen.py:282). `CleanResultsAgree` covers the case of at most one.
- PyGen.Document: gen.py prints as it goes. When `int` raises on a ledger value, gen.py has already written TYPES and the LEDGER_ENTRY_TYPES members before the failing one (gen.py:79-141). The model's `None` does not keep that partial output.

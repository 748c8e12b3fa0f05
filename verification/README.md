# Affiliation-merchant extractor (SG), modelled in Dafny

This project models `scripts/extract_affiliation_fields_sg.py`. That script reads a JSON document of
merchant affiliation records. It keeps the records whose `country_filter` is `"SG"` and whose
`base_mpd` is non-null. It then writes each kept record out reduced to four fields: `base_mpd`,
`merchantName`, `merchant_slug` and `trackingLink`.

The model starts from an already-parsed JSON value and has three parts:

- `is_nonnull` is modelled as `Extractor.IsNonNull`. It relies on Python's `str.strip()` and
  `str.lower()`, which are modelled as `PyStr.Strip` and `PyStr.Lower`.
- The `extract` loop is modelled twice. `Extractor.Extract` is a recursive function and
  `Extractor.ExtractLoop` is the loop as written. Both go through `Extractor.ProcessEntry`, which
  models the body of the `try` block. A non-dict entry makes that body fail with `NotAMapping`
  (Python's `AttributeError` on `.get`). The `except` branch then skips the entry.
- The normalisation block of `main` is modelled as `Extractor.Normalize`. It turns the loaded
  document into the list of entries. `Extractor.Run` chains normalisation and extraction.

Files:

- `wrappers.dfy`: `Option` and `Result`.
- `json.dfy`: the `Json` value type and `Get`, which models `dict.get`.
- `pystr.dfy`: Python whitespace, `strip` and `lower`.
- `extractor.dfy`: the script's logic.
- `extractor_proofs.dfy`: the properties proved about it.

The key definitions:

- `Qualifies(v)` is the inclusion condition. It is stated directly on the raw entry: the entry is
  an object, `country_filter` is present and equals the string `"SG"`, and `base_mpd` is present
  and non-null. The code instead compares `obj.get(...)` against `"SG"`. The two agree because a
  missing key reads as null.
- `IsProjectionOf(rec, src)` describes an emitted record. Its keys are exactly the four output
  keys. Each value is copied from the source, or is null where the source lacks that key.
- `IsSelection(items, out, idx)` says that `out` is the projection of a subsequence of `items`.
  The positions `idx` are strictly increasing and are exactly the positions of the qualifying
  entries.

## Model

| member | source | states |
|---|---|---|
| `Extractor.IsNonNull` | scripts/extract_affiliation_fields_sg.py:13-14 | `is_nonnull` itself; what it accepts and rejects is stated by `ExtractorProofs.IsNonNullIff` and its two directions `RejectedIsNullLike` and `NullLikeIsRejected` |
| `PyStr.Strip` | scripts/extract_affiliation_fields_sg.py:14 | `str.strip()` with no argument; specified by `PyStr.StripIsStripOf` (whitespace removed at both ends only) and `PyStr.StripUnique` (that description fixes the result) |
| `JsonValues.Get` | scripts/extract_affiliation_fields_sg.py:21-29 | `dict.get(key)`: the stored value, or null for a missing key; `Extractor.ProjectIsProjection` and the `Qualifies` clause of `Extractor.ProcessEntry` state what the script's `.get` calls yield in those terms |
| `Extractor.Qualifies` | scripts/extract_affiliation_fields_sg.py:21-24 | the two `continue` tests, stated on the raw entry (key present and equal to `"SG"`; key present and non-null); `Extractor.ProcessEntry` proves the tests as written keep exactly the entries it admits |
| `Extractor.Project` | scripts/extract_affiliation_fields_sg.py:25-30 | the four-key dictionary literal; `Extractor.ProjectIsProjection` proves it is the entry's projection onto `base_mpd`, `merchantName`, `merchant_slug`, `trackingLink` |
| `Extractor.ProcessEntry` | scripts/extract_affiliation_fields_sg.py:20-33 | one entry through the `try` block: it fails exactly when the entry is not an object; it yields a record exactly when the entry qualifies (country `"SG"`, non-null `base_mpd`), and that record is the four-key projection of the entry |
| `Extractor.Emitted` | scripts/extract_affiliation_fields_sg.py:19-33 | an entry contributes one record, its projection, if it qualifies, and nothing otherwise, including when it is malformed |
| `Extractor.Extract` | scripts/extract_affiliation_fields_sg.py:17-34 | the output is never longer than the input, and every output record is an object with exactly the keys `base_mpd`, `merchantName`, `merchant_slug`, `trackingLink` |
| `Extractor.ExtractLoop` | scripts/extract_affiliation_fields_sg.py:17-34 | the for-loop with `try`/`except`/`continue` and `append` computes the same list as the recursive `Extract` |
| `Extractor.ExtractAppend` | scripts/extract_affiliation_fields_sg.py:17-34 | entries are handled independently and in order: `extract(a + b) == extract(a) + extract(b)` |
| `Extractor.ProjectIsProjection` | scripts/extract_affiliation_fields_sg.py:25-30 | the dictionary literal built for a kept entry has exactly the four keys, each holding the entry's value or null when the entry lacks it |
| `Extractor.FirstListKey` | scripts/extract_affiliation_fields_sg.py:51-54 | the `for ... else` search returns the first key, in the given order, that is present and holds a list; no earlier key does; it returns the key count when none does |
| `Extractor.Normalize` | scripts/extract_affiliation_fields_sg.py:47-61 | an array is used as-is. An object yields the list under the first of `data`, `items`, `merchants`, `results` that holds a list, with keys holding non-lists passed over. An object with no such key yields `[object]`. Any other value is an `UnsupportedStructure` error |
| `Extractor.Run` | scripts/extract_affiliation_fields_sg.py:47-63 | the run fails exactly for a top-level value that is neither object nor array; for an array it extracts from the array itself |
| `PyStr.StripIsStripOf` | scripts/extract_affiliation_fields_sg.py:14 | `strip()` returns `s` with a whitespace run removed at each end, and the result neither starts nor ends with whitespace (whitespace as Python's `str.isspace`) |
| `PyStr.StripUnique` | scripts/extract_affiliation_fields_sg.py:14 | any slice of `s` that has only whitespace around it and no whitespace at its own ends is exactly `strip(s)` |
| `PyStr.Lower` | scripts/extract_affiliation_fields_sg.py:14 | `lower()` keeps the length and lower-cases character by character (ASCII letters) |
| `ExtractorProofs.IsNonNullIff` | scripts/extract_affiliation_fields_sg.py:13-14 | `is_nonnull(v)` is false exactly for JSON null and for strings that are all whitespace or are "null" in any letter case surrounded only by whitespace; numbers, booleans (including false), arrays, objects and all other strings are non-null |
| `ExtractorProofs.RejectedIsNullLike` | scripts/extract_affiliation_fields_sg.py:14 | a string that `is_nonnull` rejects is blank or a whitespace-padded spelling of "null" |
| `ExtractorProofs.NullLikeIsRejected` | scripts/extract_affiliation_fields_sg.py:14 | every blank string and every whitespace-padded spelling of "null" is rejected |
| `ExtractorProofs.OtherWordPasses` | scripts/extract_affiliation_fields_sg.py:14 | a string with no whitespace at its ends and a length other than four is non-null |
| `ExtractorProofs.NullLikeExamples` | scripts/extract_affiliation_fields_sg.py:13-14 | null, `" "` and `" Null\t"` are rejected |
| `ExtractorProofs.NonNullExamples` | scripts/extract_affiliation_fields_sg.py:13-14 | the number 0, the boolean false and `"M1"` are non-null |
| `ExtractorProofs.ExtractIsSelection` | scripts/extract_affiliation_fields_sg.py:17-34 | `extract` keeps exactly the qualifying entries, each once, in input order, and projects each to the four keys with values copied verbatim |
| `ExtractorProofs.ExtractSound` | scripts/extract_affiliation_fields_sg.py:21-30 | every output record is the projection of some input entry with `country_filter == "SG"` and non-null `base_mpd` |
| `ExtractorProofs.ExtractComplete` | scripts/extract_affiliation_fields_sg.py:19-30 | every input entry with `country_filter == "SG"` and non-null `base_mpd` has its projection in the output |
| `ExtractorProofs.DroppedEntryInvisible` | scripts/extract_affiliation_fields_sg.py:19-33 | inserting an entry that does not qualify anywhere in the input leaves the output unchanged. This includes a malformed entry such as a string, number, array or null, so such an entry never aborts the pass |
| `ExtractorProofs.WrappedEqualsBare` | scripts/extract_affiliation_fields_sg.py:47-54 | a document that wraps a list under `"data"` gives the same result as the bare list, whatever other keys it has |
| `ExtractorProofs.NonListKeyPassedOver` | scripts/extract_affiliation_fields_sg.py:51-54 | a `"data"` key that holds a non-list is skipped in favour of a list under `"items"` |
| `ExtractorProofs.ExampleExtract` | scripts/extract_affiliation_fields_sg.py:17-34 | on the four-entry example (SG/M1, US/M2, SG/null, SG/M3), `extract` outputs the M1 and M3 records, in that order |
| `ExtractorProofs.FourEntryExample` | scripts/extract_affiliation_fields_sg.py:47-63 | the same example gives the same two records as a bare array and when wrapped under `"data"` |

## Left out

- Argument parsing, opening and reading the input, and writing the output file are not modelled
  (lines 37-45 and 65-69). Neither is the summary `print` (line 71). These are I/O; the model
  starts from a parsed value and ends with the list of records.
- JSON text parsing and serialisation (`json.load`, and `json.dump` with `indent` and
  `ensure_ascii`) are library calls and are not modelled. As a result, the key order of objects
  is not modelled: objects are unordered maps. Python keeps insertion order, so the written
  output lists the four keys in the order of the dictionary literal. How duplicate keys in the
  input text are resolved is also the parser's business.
- JSON numbers are carried as integers. The script only passes numbers through and never
  compares them with anything except `"SG"`, so floating point plays no part.
- The `SystemExit` raised for an unsupported top-level value is modelled as the error value
  `UnsupportedStructure`. Its message text and the process exit status are not modelled.
- PyStr.Lower: lower-cases ASCII letters only, whereas Python's `str.lower()` covers all of
  Unicode. The script only uses the result in the test `in ["", "null"]`. For that test the two
  give the same answer, because no non-ASCII character lower-cases to `n`, `u` or `l`, and a
  string lower-cases to `""` only if it is empty. This argument rests on the Unicode case tables
  and is not proved here.
- `PyStr.IsSpace` lists the code points for which Python's `str.isspace()` is true. `strip()`
  with no argument removes exactly these.

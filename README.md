# Wake County real-estate scraper: a verified model of its core

`scraper.py` fetches the Account page of every Wake County real-estate
account number in turn, extracts a record of fields from it and saves it.
This project models the parts of it that have behaviour worth stating:

- **Text normaliser** (`cleanString`, module `Text`): an optional
  `str.strip()`, then every maximal run of whitespace or U+200B (zero-width
  space) becomes one ASCII space. `Collapse` is the substitution, proved to
  produce the normal form (no whitespace but `' '`, no U+200B, no two
  spaces in a row) and to keep every other character in order. It is pinned
  down completely by `CollapseOfRun` and `CollapseSplit`. Its fixed points
  are exactly the normal strings. Cleaning is idempotent without stripping.
  With stripping it is idempotent exactly when the stripped text neither
  starts nor ends with U+200B.
- **Identifiers and addresses** (`makeId`, `makeURL`, the `Data` tabs;
  module `Ids`): the decimal form of the number, left-padded with `'0'` to
  width 7. Its partner is a parser: numbers are recovered from padded ids
  and (tab, number) pairs from addresses, so both formats are injective.
- **Sentinel check** (`goldilocks`, module `Sentinel`): the page passes
  through unchanged, or the extraction fails. The check is modelled both as
  written and as corrected, and the rest of the model uses the corrected one.
- **Fixed-offset reads** (lines 54-68 of `attachAccountData`, modules
  `Fixed` and `Stores`): seven keys read from the `<b>` texts of `tr`s 3, 7,
  11 and 9, in that order, and stored with no emptiness test. A missing
  `tr` or `<b>` raises, and the writes made before it stay in the record.
  `Stores.Store` is that run of writes that stops at the first failed read.
  The lemmas say when the reads all succeed, what each key then holds, and
  that no other key is touched. They also show that a blank owner cell is
  stored as `""` and two blank mailing-address cells as `" "`.
- **Paired-emphasis row extraction** (the nested loop of
  `attachAccountData`, module `Account`). The page is abstracted to the
  text of its first `h1`, the `<b>` texts of each of its `tr`s, and the rows
  of its detail table, each row a sequence of cells `(text, hasBold)`.
  `ScanRow` is the inner loop and `AccountData.AttachRowPairs` the outer
  loop, which updates the record's map in place. Both are proved against the specification functions
  `RowField`, `RowValue` and `ApplyRows`. The lemmas say which cell decides
  a row, which key a row may touch, that a later row wins, and that the
  rows never store an empty name or value. `GetData` composes the sentinel,
  the fixed-offset reads, the lookup of `tr` 22 and the rows.
- **Run controller** (`main` and the global `FAIL_COUNT`, module
  `Controller`): `Runner.Run` is the loop over ids 1, 2, 3, …. Whether
  each id succeeds is an input sequence. The count is proved to be the
  number of failures since the last success. The loop stops before the next
  id exactly when that count has reached 50, and the count is at most 50 at
  every check.

Three behaviours of the code differ from what one might expect, and the
model follows the code:

- Within a row, the *last* cell holding `<b>` gives the value, and the last
  plain cell with non-empty text gives the field name. It is not the first
  one.
- With stripping, a U+200B at either end survives `strip()` and becomes a
  leading or trailing space. The result is therefore not always trimmed
  (`ZeroWidthEdgeFirst`).
- The sentinel test compares identity, not text; see "## Findings".

## Model

| member | source | states |
|---|---|---|
| Text.StripLeft | scraper.py:27-28 | the result is the input minus its longest prefix of whitespace, and it does not start with whitespace |
| Text.StripRight | scraper.py:27-28 | the result is the input minus its longest suffix of whitespace, and it does not end with whitespace |
| Text.Strip | scraper.py:27-28 | `str.strip()` leaves no whitespace at either end and never lengthens the text |
| Text.StripTrims | scraper.py:27-28 | `strip()` returns a slice of the input whose removed prefix and suffix consist only of whitespace |
| Text.StripTrimmed | scraper.py:27-28 | a text with no whitespace at either end is left unchanged by `strip()` |
| Text.Collapse | scraper.py:30 | the substitution's output is in normal form (its only whitespace or zero-width character is `' '`, and it has no two spaces in a row); it is empty iff the input is; its first and last characters are spaces exactly where the input's are whitespace or U+200B |
| Text.CollapseKeepsVisible | scraper.py:30 | every character that is neither whitespace nor U+200B survives the substitution, in order, and no other one appears |
| Text.CollapseOfRun | scraper.py:30 | a non-empty run of whitespace and U+200B becomes exactly one space |
| Text.CollapseSplit | scraper.py:30 | the substitution acts independently on either side of a visible character (with CollapseOfRun this determines it on every input) |
| Text.CollapseFixpoint | scraper.py:30 | the substitution leaves a text unchanged if and only if the text is already in normal form |
| Text.CleanString | scraper.py:26-30 | `cleanString` returns normal-form text with the same visible characters as its input, never longer |
| Text.StripKeepsVisible | scraper.py:27-28 | stripping removes only whitespace, so the visible characters stay the same |
| Text.CleanIdempotent | scraper.py:26-30 | with `strip=False`, cleaning a cleaned text changes nothing |
| Text.CleanStripIdempotentIff | scraper.py:26-30 | with `strip=True`, cleaning twice equals cleaning once if and only if the stripped input neither starts nor ends with U+200B |
| Text.CleanMixedExample | scraper.py:26-30 | with stripping, `" A\u200b  B\n C "` cleans to `"A B C"`, for any visible characters in place of A, B and C |
| Text.ZeroWidthEdgeFirst | scraper.py:26-30 | with stripping, `"\u200bA"` cleans to `" A"`: the leading U+200B survives `strip()` and becomes a space |
| Text.ZeroWidthEdgeSecond | scraper.py:26-30 | with stripping, `" A"` cleans to `"A"`, so cleaning `"\u200bA"` twice differs from cleaning it once |
| Ids.Decimal | scraper.py:22 | `str(n)` is a non-empty digit string whose first digit is `'0'` only for 0 |
| Ids.DecimalRoundTrip | scraper.py:22 | reading `str(n)` back as a number gives `n` |
| Ids.ParseDecimalRoundTrip | scraper.py:22 | every digit string without a leading zero is `str` of its value |
| Ids.DecimalLength | scraper.py:20-22 | `str(n)` has at most `k` digits exactly when `n < 10^k` |
| Ids.MakeId | scraper.py:20-22 | no contract of its own; `f"{num:0>7}"` for `num >= 0`, characterised by MakeIdShape, MakeIdSevenWide and MakeIdRoundTrip |
| Ids.MakeIdShape | scraper.py:20-22 | `makeId(n)` has length `max(7, len(str(n)))`, is all digits, is `'0'` padding followed by `str(n)` |
| Ids.MakeIdSevenWide | scraper.py:20-22 | for `n < 10^7` the id is exactly seven characters, `7 - len(str(n))` zeros and then `str(n)` |
| Ids.MakeIdRoundTrip | scraper.py:20-22 | reading the padded id as a number gives back `n` |
| Ids.MakeIdUnpad | scraper.py:20-22 | for `n >= 1`, stripping the leading zeros of the id leaves `str(n)`, which parses to `n` |
| Ids.MakeIdInjective | scraper.py:20-22 | different numbers get different ids |
| Ids.PageName | scraper.py:11-18 | no contract of its own; the value of each `Data` member, characterised by PageNameRoundTrip |
| Ids.TabOf | scraper.py:11-18 | a page name read back names a tab whose value is that name |
| Ids.PageNameRoundTrip | scraper.py:11-18 | each tab's value names that tab, and no value contains `'.'` |
| Ids.MakeUrl | scraper.py:24 | no contract of its own; the address f-string, characterised by MakeUrlRoundTrip and MakeUrlInjective |
| Ids.ParseUrlParts | scraper.py:24 | an address made of the prefix, a dot-free tab name, `.asp?id=` and digits is read back into that tab and number |
| Ids.MakeUrlRoundTrip | scraper.py:24 | the address `makeURL(tab, id)` is read back into exactly `(tab, id)` |
| Ids.MakeUrlInjective | scraper.py:24 | different tabs or numbers never share an address |
| Sentinel.GoldilocksAsWritten | scraper.py:36-42 | as written, the check returns its argument unchanged when it does not fail; it can fail only when an `h1` exists, and never when the identity test is false |
| Sentinel.MovedPageSlipsThrough | scraper.py:39 | a page headed "Object Moved" passes the written check when its heading text is not the constant's very object |
| Sentinel.Goldilocks | scraper.py:36-42 | the intended check returns its argument unchanged, and fails exactly on a page whose first heading reads "Object Moved" |
| Sentinel.AsWrittenWeaker | scraper.py:39-40 | the written check fails only where the intended one does, and the two agree whenever identity answers as equality would |
| Account.RowValue | scraper.py:74-79 | no contract of its own; `value` after the inner loop, characterised by RowValueIsLastBold and RowValueNone |
| Account.RowField | scraper.py:74-81 | no contract of its own; `field` after the inner loop, characterised by RowFieldIsLastLabel and RowFieldNone |
| Account.ApplyRow | scraper.py:83-84 | no contract of its own; `if field and value: data[field] = value` for one row, characterised by ApplyRowFrame |
| Account.ApplyRows | scraper.py:72-84 | no contract of its own; the outer loop over the detail rows, characterised by ApplyRowsFrame, ApplyRowsLastWins, ApplyRowsNoEmpties, ApplyRowsKeep and ApplyRowsKeys |
| Account.RowValueIsLastBold | scraper.py:77-79 | a row's `value` is the cleaned text of its last cell holding `<b>` |
| Account.RowValueNone | scraper.py:75-79 | `value` stays `None` exactly when no cell of the row holds `<b>` |
| Account.RowFieldIsLastLabel | scraper.py:77-81 | a row's `field` is the cleaned text of its last cell without `<b>` and with non-empty raw text |
| Account.RowFieldNone | scraper.py:74-81 | `field` stays `None` exactly when the row has no such cell |
| Account.ScanRow | scraper.py:73-81 | the inner loop ends with `field` and `value` equal to RowField and RowValue of the row |
| Account.ApplyRowFrame | scraper.py:83-84 | one row changes only its own field's key, and a row whose field or value is falsy changes nothing |
| Account.ApplyRowsFrame | scraper.py:72-84 | a key that no row writes keeps its presence and its value |
| Account.ApplyRowsLastWins | scraper.py:72-84 | for rows with the same field, the last such row's value is what the record holds |
| Account.ApplyRowsNoEmpties | scraper.py:83-84 | the loop never stores an empty field name or an empty value, so a record whose keys outside a given set are non-empty, with non-empty values, stays so |
| Account.ApplyRowsKeep | scraper.py:72-84 | a key already in the record is still there after the rows: they only add or overwrite |
| Account.ApplyRowsKeys | scraper.py:72-84 | every key of the record afterwards was there before or is written by some row |
| Account.AccountData.constructor | scraper.py:89 | a new record is empty |
| Account.AccountData.AttachRowPairs | scraper.py:72-84 | the outer loop updates the record in place to ApplyRows of the old record and the rows |
| Account.AccountData.AttachFixedFields | scraper.py:54-68 | the seven reads and writes update the record in place to the run of fixed writes on the old record, stopping at the first missing cell |
| Account.AccountData.AttachAccountData | scraper.py:44-86 | fails exactly on a placeholder page, a page missing a fixed-offset cell, or one without `tr` 22; a placeholder page leaves the record unchanged, and a missing cell keeps the fixed writes made before it; otherwise the fixed writes and then the detail rows' pairs are applied |
| Account.GetData | scraper.py:88-91 | `getData` fails on exactly those pages; otherwise it returns the fixed writes and then the rows' pairs applied to an empty record, with all seven fixed keys present and every other key and its value non-empty |
| Stores.Store | scraper.py:54-68 | no contract of its own; a run of writes that stops at the first read that raises, characterised by StoreCompletes, StoreStopsAt, StoreFrame, StoreLastWins and StoreKeys |
| Stores.StoreCompletes | scraper.py:54-68 | a run of writes is made in full exactly when none of its reads raises |
| Stores.StoreStopsAt | scraper.py:54-68 | a read that raises ends the run, and the record then holds exactly the writes before it |
| Stores.StoreFrame | scraper.py:54-68 | a key that no write names keeps its presence and its value |
| Stores.StoreLastWins | scraper.py:54-68 | when no read raises, a key holds the value of the last write naming it |
| Stores.StoreKeys | scraper.py:54-68 | every key added by the run is named by one of its writes |
| Fixed.Value | scraper.py:55-68 | no contract of its own; one bold text cleaned with stripping (lines 55-63), or two stripped bold texts joined by a space and cleaned without stripping (lines 67-68) |
| Fixed.FixedWrites | scraper.py:54-68 | no contract of its own; the seven key/read pairs in source order, characterised by FixedReadsSucceed, FixedStored, FixedFrame and FixedKeysOnly |
| Fixed.FixedReadsSucceed | scraper.py:54-68 | the seven reads all succeed exactly when `tr`s 3 and 7 have at least two `<b>`s, `tr` 9 has at least seven and `tr` 11 has at least one |
| Fixed.UnreadableSomeMissing | scraper.py:54-68 | on any other page, some read of the layout finds its cell missing |
| Fixed.FixedStored | scraper.py:54-68 | on such a page each of the seven keys holds the cleaned text read for it |
| Fixed.FixedFrame | scraper.py:54-68 | no key outside the seven is added, removed or changed by these writes |
| Fixed.FixedKeysOnly | scraper.py:54-68 | every key these writes add is one of the seven |
| Fixed.OwnerMissingKeepsFour | scraper.py:54-63 | a `tr` 11 without `<b>` raises after the ID, the PIN, the location address and the description are stored, and before the owner is |
| Fixed.BlankOwnerStored | scraper.py:62-63 | a blank owner cell is stored as `""`: these writes have no emptiness test |
| Fixed.JoinBlanks | scraper.py:67-68 | joining two blank stripped texts and cleaning without stripping gives `" "` |
| Fixed.BlankMailingIsSpace | scraper.py:65-67 | two blank mailing-address cells are stored as `" "` |
| Controller.Step | scraper.py:111-114 | no contract of its own; `FAIL_COUNT` is reset to 0 on success and incremented on failure |
| Controller.CountAfter | scraper.py:99-116 | no contract of its own; the count after a sequence of outcomes, characterised by CountIsTrailingFailures and CountBoundedAtChecks |
| Controller.CountIsTrailingFailures | scraper.py:111-114 | the count equals the number of failures since the last success (or the start plus all failures when there was none) |
| Controller.StopPoint | scraper.py:101-104 | the number of ids processed is the first point at which the count has reached 50, or the whole range |
| Controller.CountBoundedAtChecks | scraper.py:102 | starting from at most 50, the count is at most 50 at every check the loop makes |
| Controller.StopsAfterStreak | scraper.py:102-104 | 50 consecutive failures make the run stop no later than right after them |
| Controller.GaveUpAfterStreak | scraper.py:102-104 | a run that stops before the end of the range has just seen 50 failures in a row |
| Controller.Runner.constructor | scraper.py:7 | `FAIL_COUNT` starts at 0 |
| Controller.Runner.Run | scraper.py:99-116 | `main` processes ids 1, 2, … in increasing order up to the stop point; the final count is the count after those outcomes; it gives up exactly when it stops before the end of the range |

## Findings

| source | as written | input that shows it | evidently intended | confidence | as-written member | corrected member |
|---|---|---|---|---|---|---|
| scraper.py:39 | `head.text is "Object Moved"` tests object identity | a page whose first `h1` reads "Object Moved": its text is a string built at run time, a different object from the constant, so the page passes (Sentinel.MovedPageSlipsThrough) | string equality, so that the placeholder page fails | not executed; high, because a string built while parsing is not the constant's object | Sentinel.GoldilocksAsWritten | Sentinel.Goldilocks |

## Left out

- Account.AccountData.AttachAccountData: it uses the corrected sentinel `Sentinel.Goldilocks`, so a page headed "Object Moved" fails here; the check as written at scraper.py:39 lets it through (`Sentinel.MovedPageSlipsThrough`) to the fixed-offset reads.
- Account.GetData: it uses the corrected sentinel too, through `AttachAccountData`.
- The kind of exception is not modelled: a missing `tr` (`IndexError`), a missing `<b>` in a `find_all` list (`IndexError`) and `find("b")` returning `None` (`AttributeError`) all become the one failure `Fixed.MissingCell`.
- The detail rows are given apart from the `tr` list, so the model does not capture that `find_all("tr")` also lists the `tr`s nested in `tr` 22.
- HTML parsing and tag search are not modelled. A page is reduced to the text of its first `h1`, the `<b>` texts of each `tr` in document order, and the cells of the rows nested in `tr` 22. `rows[11].find("b")` is read as the first of those `<b>` texts.
- Fetching a page (`makeCurlFor`, curl through `subprocess`) is not modelled: it is network I/O.
- Saving a record (`saveData`, `json.dumps`) and all printing are not modelled: they are persistence and logging.
- Key order is not modelled. A Python dict keeps its keys in insertion order, and a key that is overwritten keeps its first position, so `json.dumps(data)` writes the fields in that order. `Account.AccountData.fields` is a `map`, which has no order; nothing in the extraction depends on the order.
- Controller.Runner.Run: the success or failure of each id is an input sequence `outcomes`; it is not derived from `Account.GetData`'s result. Besides the extraction's failures, it stands for failures this model leaves out: the curl fetch of `makeCurlFor` (scraper.py:32-34) and the file write of `saveData` (scraper.py:93-97).
- Text.IsSpace: it is written out as Python's whitespace class, shared by `str.strip()` and `\s`. The proofs rely only on `' '` and `'\n'` being whitespace and U+200B not being whitespace.
- Ids.MakeId: only non-negative numbers are modelled, since the ids come from `range(1, 9999999)`. Python would pad a negative number as `"00000-5"`.
- Sentinel.GoldilocksAsWritten: the identity test is an input, because object identity is a fact of the Python runtime rather than of the text.

# XMLtoCSV core, modelled in Dafny

XMLtoCSV turns a folder of MODS XML records, one per digitised object, into a CSV
metadata sheet for the ARCA repository. It writes one row per file and one column per
metadata field. This project models the two core files of the converter and proves
properties of the model:

- `logic.py`:
  - `convert_date`, the repair of the two badly formatted date shapes (`Jun-17`,
    `21-01-1917`);
  - `multi_hdg_mkr`, the numbered column names;
  - `is_newspaper_issue`, the schema choice;
  - the per-file loop of `convert_to_csv`, which fills the frame row by row.
- `mappings.py`:
  - one extractor per CSV column (`generic_find`, `generic_select`, `date_created`,
    `key`, `get_repo_num`, `pid`, `image_link`, `title`, `extent`, `corporate_finder`,
    `subject_geographic`, ...);
  - the memoised extractors of the numbered columns, with their module-level stores and
    `reset`;
  - the `mappings` registry from column header to extractor.

`logic.py` does not call `mappings.py`. Each computes its cells on its own. Where the two
compute the same thing, the model shares one definition (the date repair, the "ca." title
rule, the extent cut). Where they differ, it keeps both, and a lemma says when they
agree. Example: corporate creators, where `logic.py` takes the first matching role of
an if/elif and `corporate_finder` checks one role.

Modules, one file each:

- `wrappers.dfy`, module `Wrappers`:
  - `Option`;
  - `Result`, with Python's exceptions as values (`ValueError`, `IndexError`,
    `AttributeError`).
- `pystr.dfy`, module `PyStr`: the parts of Python's `str` the code uses. These are
  `strip`, `rstrip(chars)`, `find`, `split` and `join`, the prefix slice `s[:end]` with a
  negative end, and `str(int)` / `int(str)`.
- `soup.dfy`, module `Soup`:
  - a parsed document as an element tree;
  - the BeautifulSoup queries the code makes (`find`, `find_all`, `select` with `>`,
    `getText`, `.string`).
- `dates.dfy`, module `Dates`:
  - `convert_date` over `strptime`/`strftime`;
  - the two regular-expression gates;
  - the date repair both files apply to `<dateIssued>`.
- `logic.dfy`, module `Logic`:
  - `multi_hdg_mkr`, `is_newspaper_issue` and the file-name identifiers;
  - the cells of one row, written group by group by methods proved against functions;
  - `convert_to_csv`'s loop over the files, proved against the frame-building function
    `BuildFrame`.
- `mappings.dfy`, module `Mappings`:
  - the extractors;
  - the class `Stores`, whose four map fields are the module-level stores;
  - the registry.

A conversion either saves a frame, hands the folder to the newspaper converter, or stops
with the first exception a file raises. The run stops at that point and nothing is saved,
so the model returns the exception and does not record the partly filled frame.

## Model

| member | source | states |
|---|---|---|
| Logic.MultiHdgMkrShape | logic.py:9-17 | the header is pt1, then the decimal digits of num, then '_', then pt2 |
| Logic.MultiHdgMkrInjective | logic.py:9-17 | two numbered headers with the same parts are equal only for the same number |
| Logic.NumberedNameInjective | mappings.py:163-169 | a numbered store key pre{n}post determines n |
| Dates.MonthNumberMeaning | logic.py:32 | `%b` accepts exactly the twelve English abbreviations, in any letter case, and gives their month number |
| Dates.ParseLetterDate | logic.py:32 | a `%b-%y` date that parses has a year in 1900..2068 (`%y` reads 69-99 as 19YY and 00-68 as 20YY) and a month in 1..12 |
| Dates.ParseNumericDate | logic.py:42-43 | a `%d-%m-%Y` date that parses is a real calendar date (leap years included) |
| Dates.ConvertLetterDate | logic.py:31-39 | a letter date becomes the strftime year (less 100 when above 1999), '-', and the two-digit month |
| Dates.LetterYear | logic.py:32-36 | a letter-shaped date with a known month parses, and its year follows the `%y` century rule |
| Dates.LetterYearPrinted | logic.py:33-37 | after the correction, the year is printed as "19" and the two digits that were written |
| Dates.LetterDateKnownMonth | logic.py:31-39 | Mon-YY with a known month converts to 19YY-MM, and its abbreviation is the capitalised English one |
| Dates.LetterDateRepair | logic.py:139-146 | a string of shape [A-Z][a-z]{2}-\d{2} becomes 19YY-MM when the month is known; otherwise the repair raises ValueError |
| Dates.NumericDateRepair | logic.py:147-148 | DD-MM-YYYY becomes YYYY-MM-DD with the same digits when it is a calendar date; otherwise ValueError |
| Dates.IsoDatesKept | logic.py:144-148 | a YYYY-MM-DD or YYYY-MM string matches neither pattern and is kept as it is |
| Dates.RepairIdempotent | logic.py:139-148 | repairing a repaired date changes nothing |
| Dates.LetterRepairIdempotent | logic.py:145-146 | repairing a repaired letter date changes nothing |
| Dates.NumericRepairIdempotent | logic.py:147-148 | repairing a repaired numeric date changes nothing |
| Dates.RepositoryCaseJan20 | test.py:101-110 | "Jan-20" repairs to "1920-01" |
| Dates.RepositoryCaseJan62 | test.py:102-111 | "Jan-62" repairs to "1962-01" |
| Dates.RepositoryCaseJan00 | test.py:103-112 | "Jan-00" repairs to "1900-01" |
| Dates.RepositoryCaseDec01 | test.py:104-113 | "Dec-01" repairs to "1901-12" |
| Dates.RepositoryCase30011989 | test.py:105-114 | "30-01-1989" repairs to "1989-01-30" |
| Dates.LetterDateCase | logic.py:145-146 | a letter date with month m repairs to "19" + YY + "-" + two-digit m |
| Dates.JanuaryCase | logic.py:145-146 | a "Jan-YY" date repairs to 19YY-01 |
| Dates.DecemberCase | logic.py:145-146 | a "Dec-YY" date repairs to 19YY-12 |
| Logic.RepoAndNum | logic.py:154-158 | IndexError exactly when the base name after `rstrip('.xml')` has no '_'; otherwise repo and num contain no '_', and that name is repo_num itself or starts with repo_num_ (any further fields are dropped) |
| Logic.TitleText | logic.py:188 | the title text fails with AttributeError exactly when the document has no `<title>` |
| Logic.CaSuffixMarks | logic.py:195-197 | the title changes exactly when the date is approximate and not "n.d." and the title has no "ca. ", and the changed title contains "ca. " |
| Logic.CaSuffixIdempotent | logic.py:195-197 | applying the "ca." rule twice is applying it once |
| Logic.TruncateCases | logic.py:211-213 | an extent without ';' is kept; with its first ';' at k > 0 it is cut to the first k - 1 characters; with ';' first, `[:-1]` drops the last character |
| Logic.NumberedMeaning | logic.py:217-223 | the numbered cells are exactly 1 .. the count of values, and cell n holds value n |
| Logic.NumberedTexts | logic.py:217-223 | cell n holds the stripped text of element n, and no cell exists past the last element |
| Logic.WriteNumbered | logic.py:217-223 | the counting loop writes exactly the numbered texts into the row's cells |
| Logic.ChooseCorporateRoles | logic.py:233-240 | the loop over corporate names computes the if/elif choice of creator and contributor |
| Logic.ElifRolesError | logic.py:236-240 | the loop fails exactly when some name whose role is taken has no namePart |
| Logic.CorporateRolesError | logic.py:236-240 | on the document: AttributeError exactly when a creator or contributor name lacks a namePart |
| Logic.ElifRolesAttributeError | logic.py:238-240 | that failure is AttributeError |
| Logic.ElifCreatorNone | logic.py:236-238 | no corporate creator exactly when no name has the creator role |
| Logic.ElifCreatorIsLast | logic.py:236-238 | the corporate creator is the namePart of the last name with the creator role |
| Logic.ElifContributorNone | logic.py:239-240 | no corporate contributor exactly when every contributor name also has the creator role (the elif never sees it) |
| Logic.ElifContributorNeverCreator | logic.py:239-240 | the corporate contributor is the namePart of the last contributor name that is not also a creator |
| Logic.FirstGeographicMeaning | logic.py:252-258 | the geographic subject is the first `<geographic>` without a `<cartographics>` inside; none exactly when each one has one |
| Logic.FindGeographic | logic.py:252-258 | the loop with `break` finds that first element |
| Logic.WithRoleMeaning | logic.py:315-320 | the collected personal creators are exactly the names with the creator role |
| Logic.CollectCreators | logic.py:315-320 | the collecting loop keeps the creator names in order |
| Logic.LastCreatorGet | logic.py:324-335 | only the number of the last creator keeps cells, and they hold that creator's given and family parts |
| Logic.LastCreator | logic.py:324-335 | the loop counts all creators and leaves given/family of the last one |
| Logic.WriteCreators | logic.py:324-335 | the creator loop writes exactly the cells of the last creator, under its number |
| Logic.FirstWithRoleMeaning | logic.py:338-345 | the contributor is the first name with the contributor role; none exactly when no name has it |
| Logic.FirstContributor | logic.py:338-345 | the loop with `break` finds that name |
| Logic.SubjectNamesGet | logic.py:360-372 | subject name n has cells for the parts that name has, and no number past the last name has any |
| Logic.WriteSubjectNames | logic.py:360-372 | the subject-name loop writes exactly those cells |
| Logic.WriteIdentification | logic.py:139-168 | the DateCreated, key, PID and imageLink writes |
| Logic.WriteTitles | logic.py:170-214 | the AlternativeTitle, Title, Description and Extent writes |
| Logic.WriteTopics | logic.py:216-223 | the topic writes |
| Logic.WriteCorporateAndPlace | logic.py:225-261 | the corporate subject, corporate creator/contributor and geographic writes |
| Logic.WriteDescriptive | logic.py:263-312 | the publisher, date range, notes, ISBN, classification, URI, record pair and coordinates writes |
| Logic.WritePersonalNames | logic.py:337-372 | the contributor and subject-name writes |
| Logic.WriteGenreAndFormat | logic.py:374-397 | the genre, authority, type and format writes |
| Logic.WriteLanguages | logic.py:399-403 | the Language1, Language2, ... writes |
| Logic.WriteRightsAndHost | logic.py:405-435 | the identifier, source, rights and related-item writes |
| Logic.RowIdentifiers | logic.py:151-168 | the row holds the repaired date, a key reading back as i + 1, PID repo_num, and the image link built from repo and num |
| Logic.RowTitleAndExtent | logic.py:188-214 | the title is written: the stripped title + ", ca. " + the date when the date is approximate and not "n.d." and the title has no "ca. ", else the title itself; the extent cell exists exactly when `<extent>` does, and is kept whole without ';' |
| Logic.RowRecordPair | logic.py:301-305 | recordCreationDate and recordOrigin are written together, and only when both elements exist |
| Logic.RowGenre | logic.py:375-388 | Genre and GenreAuthority appear together, with "marcgt" exactly when a marcgt genre exists and "aat" otherwise |
| Logic.RowTopics | logic.py:217-223 | SubjectN_Topic holds the n-th `<topic>`'s stripped text, for every n up to the count |
| Logic.RowLanguages | logic.py:401-403 | LanguageN holds the n-th `<languageTerm>`'s stripped text |
| Logic.RowCreators | logic.py:314-335 | the creator cells are those of the last creator, numbered with the count of creators |
| Logic.RowSubjectNames | logic.py:360-372 | subject-name cell (n, part) holds that part of the n-th personal subject name |
| Logic.RowCorporate | logic.py:233-249 | the corporate cells exist exactly when a role was chosen, and hold its stripped namePart |
| Logic.RowContributor | logic.py:337-357 | the contributor cells are empty when no name is a contributor, and otherwise come from the first contributor |
| Logic.FillRow | logic.py:131-437 | one pass of the loop body writes the row `RowOf` specifies, or raises its exception |
| Logic.RowKey | logic.py:160-161 | the key cell of row i is str(i + 1) |
| Logic.BuildFrameRows | logic.py:130-437 | the frame is built exactly when every file's row is; it then has rows 0 .. n-1, row k being file k's |
| Logic.BuildFrameError | logic.py:130-437 | a failed frame fails with the exception of the first file whose row fails |
| Logic.BuildFramePrefixError | logic.py:130-437 | once a prefix of the files fails, the whole run fails the same way |
| Logic.BuildFrameSnoc | logic.py:131-437 | one more file adds its row under the next row number |
| Logic.FrameKey | logic.py:160-161 | row k of a built frame has key str(k + 1) |
| Logic.FrameKeysDistinct | logic.py:160-161 | two rows of a built frame have different keys |
| Logic.ConvertToCsv | logic.py:118-437 | the conversion raises IndexError on an empty folder, hands newspaper folders over, and otherwise runs the row loop |
| Logic.ConversionSaved | logic.py:118-131 | a saved frame comes from a non-empty folder whose first file is not a newspaper issue, and has one row per file |
| Logic.ConversionKeys | logic.py:130-161 | in a saved frame, row k's key is str(k + 1), and keys of different rows differ |
| PyStr.Strip | mappings.py:13 | the stripped text neither starts nor ends with whitespace |
| PyStr.StripKeepsMiddle | mappings.py:13 | strip removes only leading and trailing whitespace and keeps the middle |
| PyStr.StripIdempotent | mappings.py:13 | stripping twice is stripping once |
| PyStr.StrFind | logic.py:196 | `find` returns the first index where the substring occurs, or -1 when none does |
| PyStr.Split | logic.py:156 | the fields contain no separator and join back to the string; one field exactly when no separator occurs |
| PyStr.SplitJoin | logic.py:33-38 | splitting the join of separator-free fields gives the fields back |
| PyStr.SplitLastField | logic.py:154-156 | the last '/'-field of d + '/' + f is f |
| PyStr.RStripCharsSuffix | logic.py:156 | `rstrip(chars)` removes exactly a trailing run of those characters |
| PyStr.DecimalRoundTrip | mappings.py:57 | int(str(n)) == n |
| PyStr.NatToStrInjective | mappings.py:57 | str(n) is injective |
| PyStr.Pad2Value | logic.py:32 | the two-digit `%m`/`%d` text reads back as its number |
| PyStr.Pad4Value | logic.py:32-34 | the four-digit `%Y` text reads back as its number |
| PyStr.Pad2OfDigits | logic.py:43 | two digits re-padded give the same text |
| PyStr.Pad4OfDigits | logic.py:43 | four digits re-padded give the same text |
| Soup.FindMeaning | mappings.py:12 | `find` gives the first matching descendant in document order; none exactly when no descendant matches |
| Soup.FilterMembers | mappings.py:160 | `find_all` returns exactly the matching descendants |
| Soup.SelectPathsMembers | mappings.py:23 | `select` returns the ends of exactly the chains matching the selector |
| Soup.SelectPathsFirst | mappings.py:23-24 | the first element `select` returns ends the first matching chain in document order |
| Soup.SelectOneStep | mappings.py:291-297 | a one-step selector selects what `find_all` finds |
| Mappings.GenericFindMeaning | mappings.py:5-13 | None exactly when no descendant has the tag; otherwise the stripped text of the first one in document order |
| Mappings.GenericSelectMeaning | mappings.py:16-24 | None exactly when no chain matches the selector; otherwise the stripped text of the last element of the first matching chain in document order |
| Mappings.GenericSelectOneStep | mappings.py:16-24 | a one-step select reads the same as a find |
| Mappings.DateCreatedMeaning | mappings.py:27-48 | without `<dateIssued>` the date is "n.d."; a returned date is already repaired |
| Mappings.Key | mappings.py:51-57 | the key is decimal digits reading i + 1 |
| Mappings.KeyInjective | mappings.py:51-57 | different rows get different keys |
| Mappings.PidAndImageLink | mappings.py:60-94 | PID and imageLink fail (IndexError) exactly when the name has no '_'; PID splits back into repo and num, and the link is built from them |
| Mappings.PidOfTwoFieldName | mappings.py:76-84 | for a stem with exactly one '_', PID is the stem itself |
| Mappings.TitleMeaning | mappings.py:111-124 | title raises exactly when there is no `<title>` or the date fails; otherwise it is the stripped title + ", ca. " + the date when the date is approximate and not "n.d." and the title has no "ca. ", and the stripped title otherwise |
| Mappings.ExtentMeaning | mappings.py:137-150 | None exactly without `<extent>`; otherwise a prefix of its text, whole without ';'; with its first ';' at k > 0, its first k - 1 characters, so the character just before the ';' is dropped too ("12 p.; 28 cm" gives "12 p") |
| Mappings.LastCorporateSnoc | mappings.py:236-237 | each further name with the role replaces the result with its namePart, or raises |
| Mappings.CorporateFinder | mappings.py:223-236 | the loop computes the last-name-with-role result |
| Mappings.LastCorporatePrefixError | mappings.py:236-237 | a failure in a prefix of the names is the failure of the whole scan |
| Mappings.LastCorporateError | mappings.py:236-237 | the finder raises exactly when some name with the role has no namePart |
| Mappings.LastCorporateNone | mappings.py:234-237 | None exactly when no name has the role |
| Mappings.LastCorporateFound | mappings.py:236-237 | the result is the stripped namePart of the last name with the role |
| Mappings.FinderAgreesWithElif | mappings.py:223-244 | when no name has both roles, `corporate_creator`/`corporate_contributor` agree with the cells `logic.py` writes |
| Mappings.SubjectGeographicMeaning | mappings.py:247-261 | the result is the first `<geographic>` without `<cartographics>`, returned as the element, not its text; None exactly when all have one |
| Mappings.KeyedGet | mappings.py:163-169 | a filled store has key pre{n}post for exactly n = 1 .. count, holding value n |
| Mappings.KeyedKeys | mappings.py:163-169 | every key of a filled store is a numbered key within the count |
| Mappings.NumberTexts | mappings.py:163-169 | the numbering loop fills an empty store with the numbered texts |
| Mappings.TopicStoreGet | mappings.py:156-172 | SubjectN_Topic holds the n-th `<topic>`'s stripped text, and no other number has a key |
| Mappings.CorporateSubjectStoreGet | mappings.py:198-212 | CorporateSubject_N holds the n-th `subject > name[type=corporate]`'s text, and no other number has a key |
| Mappings.NumberedCreatorsMeaning | mappings.py:357-366 | the numbered names are exactly the creators with both a given and a family part |
| Mappings.CreatorTextsAt | mappings.py:357-369 | given text n and family text n come from the same name |
| Mappings.CreatorStoreGet | mappings.py:349-369 | CreatorN_Given / CreatorN_Family exist for exactly n = 1 .. the count of creators with both parts, and hold the parts of the n-th one |
| Mappings.PopulateStep | mappings.py:357-369 | one more name writes the next number's part, or nothing |
| Mappings.Stores.constructor | mappings.py:153-346 | the module starts with all four stores empty |
| Mappings.Stores.SubjectTopic | mappings.py:156-172 | fills the topic store only when it is empty, then looks the field up; the other stores are untouched |
| Mappings.Stores.CorporateSubject | mappings.py:198-212 | the same for the corporate subject store |
| Mappings.Stores.PopulateCreators | mappings.py:349-369 | both creator stores gain exactly the numbered parts, over what they held |
| Mappings.Stores.CreatorFamily | mappings.py:372-382 | populates both creator stores when the family store is empty, then looks the field up |
| Mappings.Stores.CreatorGiven | mappings.py:397-407 | the same, keyed on the given store |
| Mappings.Stores.SubjectLookup | mappings.py:153-219 | a subject entry keeps the stores filled from this document and returns the fresh value |
| Mappings.Stores.FamilyLookup | mappings.py:372-394 | a CreatorN_Family entry keeps the stores filled from this document and returns the fresh value |
| Mappings.Stores.GivenLookup | mappings.py:397-419 | a CreatorN_Given entry keeps the stores filled from this document and returns the fresh value |
| Mappings.Stores.Extract | mappings.py:433-467 | a registry entry returns what a fresh computation does while the stores hold only this document's values; entries without a store change nothing |
| Mappings.Stores.Reset | mappings.py:422-430 | all four stores are empty afterwards |

## Left out

- Reading files, XML parsing, `glob` and `sorted`: a file is its path and its parsed tree, and the folder arrives as the sorted sequence.
- Paths use '/' as `os.sep`.
- The pandas DataFrame and `save`/`to_csv`/`print`: the frame is a map from row number to a row of cells.
- The column order of `col_names` is left out. So are the columns it declares but never writes (`Filename`, `Directory`, `child_key`).
- `df.append` (logic.py:127): the model assumes a pandas before 2.0, where the call returns a new frame that is discarded, so it has no effect. In pandas 2.0 and later `DataFrame.append` no longer exists and this line raises AttributeError before any file is read; that outcome is not modelled.
- `convert_newspapers_to_csv` is not part of this model. The outcome only records that the folder was handed to it.
- Cells written before an exception are not recorded, because the run stops and saves nothing.
- Dates.LetterShape, Dates.NumericShape and PyStr.IsDigit: `\d` is modelled as the ASCII digits 0-9. Python's `\d`, `strptime`'s numeric fields and `int()` also accept other Unicode decimal digits, so a date such as "Jan-٢٠" (which the source repairs to "1920-01") or "٣٠-٠١-1989" (on which the source's `strptime` raises ValueError) is kept unchanged by the model.
- `re.match` in general: the model has only the two patterns the code uses.
- `strptime`: only `%b-%y` and `%d-%m-%Y`, with English month names. Locales are not modelled.
- bs4 details: `.string` follows the documented single-child rule. Comments, CDATA and namespaces are not modelled. `getText` concatenates the text of the element and its descendants in order.
- `findChildren('cartographics')` searches all descendants, as bs4's recursive default does.
- The literal headers of the `mappings` dictionary are kept as data. They are not proved equal to the column names `logic.py` writes, because comparing 33 string literals is too costly for the solver.
- The registry's entries take different arguments: `key` takes the row index, `PID`/`imageLink` the file name, the rest the soup. `Extract` passes each the one it takes. Calling them uniformly, as a dictionary lookup would, is not modelled.
- Mappings.Stores.Extract: promises the fresh value only while every store is empty or holds this document's values, which is what `reset` between documents guarantees. With a store left over from another document, Extract states nothing about the result. The single lookups (`Stores.SubjectTopic` and the others) state that they read the stale store as it is.

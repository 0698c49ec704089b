# kazPatentValidator harvesting logic, in Dafny

kazPatentValidator collects the patents, utility models, industrial designs, breeding
achievements and trade marks registered in Kazakhstan. It draws on two public sources.

- **The state register** (gosreestr.kazpatent.kz). A Selenium crawler pages through the
  result cards of each category.
  - It reads a summary record off each card.
  - It fetches the card's detail page, normalises the detail labels and merges the
    detail record into the summary.
  - It drops duplicates (security-document number, else registration number) and keeps
    only records with a status.
  - It notes every document number it met in a ledger of `(category, documentNumber,
    isParsed)` entries.
  - A replay service later retries the ledger's unparsed entries. An image service
    attaches screenshots to stored records.
  - An older card parser builds simpler records from the card text alone and saves them
    to the same patent table, checking for duplicates by application number.
- **The electronic bulletin** (ebulletin.kazpatent.kz).
  - A JSON API delivers bulletin records (DTOs). Three converters turn them into patent
    records with ordered extension attributes.
  - Two loops walk years, bulletin dates, pages and categories.
  - A reactive service does the same through a stream, and fetches trade-mark images.

Around these sit a text toolkit (transliteration between Latin, Cyrillic and Kazakh
letters, the repair of Cyrillic look-alikes, Latin detection), the category enumeration,
the record validator and the CSV export.

The model has one module per Java class of that core, plus four support modules.

- `Wrappers`: `Option` and `Result`.
- `JavaText`: the `String`/`Integer` methods the code relies on.
- `LocalDates`: `dd.MM.yyyy` dates and `LocalDate.toString`.
- `PatentModel`: the record, the extension attribute, the ledger entry and the two DTOs.

The browser, HTTP and the database are replaced by parameters.

- The outcome of each wait, click or connection is an oracle, either a function of the
  try number or a sequence of outcomes.
- The database tables are `seq` fields of classes (`PatentService.PatentRepository`,
  `PatentStorageService.DocNumberStore`, `PatentParserService.CardTable`), updated by
  methods whose `modifies` clauses name them.
- A database that refuses every call is the store's `available` flag.

Loops of the Java code are `while`/`for` loops proved against recursive specification
functions. The properties are lemmas about those functions.

The code does not compile as shown: `Patent` lacks fields its callers use, and
`saveDocNumber` is declared with two parameters but called with three. The model follows
the callers:
- one `Record` holds every field the parsers read or write;
- the ledger entry is `LedgerEntry(category, documentNumber, isParsed)`;
- `saveDocNumber` takes `(category, documentNumber, isParsed)`, with the document number
  as a string.

## Model

| member | source | states |
|---|---|---|
| PatentValidator.IsValid | src/main/java/kz/it/patentparser/validator/PatentValidator.java:9-19 | a record is valid exactly when its status is present and non-empty; a missing record (the caught NullPointerException) is invalid |
| PatentValidator.ValidityDependsOnlyOnStatus | src/main/java/kz/it/patentparser/validator/PatentValidator.java:11 | two records with the same status are judged alike, whatever their other fields |
| PatentValidator.BlankStatusIsValid | src/main/java/kz/it/patentparser/validator/PatentValidator.java:17-19 | a status of blanks only passes: `isEmpty` does not trim |
| PatentCategory.BuildLookupTables | src/main/java/kz/it/patentparser/enums/PatentCategory.java:19-24 | the loop filling both maps leaves each id and each name mapped to its own category and nothing else |
| PatentCategory.FromId | src/main/java/kz/it/patentparser/enums/PatentCategory.java:39-41 | the category whose id is the argument, or null when no category has it |
| PatentCategory.FromName | src/main/java/kz/it/patentparser/enums/PatentCategory.java:43-45 | the category whose display name is the argument, or null |
| PatentCategory.FromIdInvertsId | src/main/java/kz/it/patentparser/enums/PatentCategory.java:7-11 | ids are exactly 1..5, `fromId(c.getId()) == c` for every category, and other ids give null |
| PatentCategory.FromNameInvertsName | src/main/java/kz/it/patentparser/enums/PatentCategory.java:7-11 | names are pairwise distinct and `fromName(c.getName()) == c` for every category |
| PatentStorageService.Saved | src/main/java/kz/it/patentparser/service/PatentStorageService.java:23-36 | the ledger after saveDocNumber: old entries stay in place, the key is present afterwards when the database is reachable, no other key appears, and unique keys stay unique |
| PatentStorageService.SaveIsIdempotent | src/main/java/kz/it/patentparser/service/PatentStorageService.java:27-31 | saving the same key twice, with any flags, leaves the ledger as saving it once |
| PatentStorageService.SaveNeverUpdatesFlag | src/main/java/kz/it/patentparser/service/PatentStorageService.java:27-30 | an existing entry is never rewritten, so a key first saved as not parsed stays so |
| PatentStorageService.Unparsed | src/main/java/kz/it/patentparser/service/PatentRetryService.java:43 | `findByIsParsedFalse`: exactly the positions of the unparsed entries, in ledger order |
| PatentStorageService.DocNumberStore.SaveDocNumber | src/main/java/kz/it/patentparser/service/PatentStorageService.java:23-36 | check-then-insert on the ledger object: the new entries are `Saved(old entries, ...)` and keys stay unique; a database failure is swallowed |
| PatentStorageService.DocNumberStore.MarkParsed | src/main/java/kz/it/patentparser/service/PatentRetryService.java:51-56 | `setParsed(true)` and save on one entry when the database is reachable; nothing else changes |
| PatentService.CountMatches | src/main/java/kz/it/patentparser/service/PatentService.java:245-249 | the number of rows a finder's (number, category, site) query selects; zero exactly when no row matches |
| PatentService.FindPresent | src/main/java/kz/it/patentparser/service/PatentService.java:245-249 | `Optional` finder then `isPresent`: false when no row matches, true for one, a NonUniqueResult failure for several |
| PatentService.LookupKey | src/main/java/kz/it/patentparser/service/PatentService.java:245-249 | the security-document number when set, else the registration number, else no lookup at all |
| PatentService.IsPatentExists | src/main/java/kz/it/patentparser/service/PatentService.java:237-250 | null record and a record without either number are not duplicates; otherwise true exactly when one row matches the lookup key, a failure when several do |
| PatentService.NoNumberIsNeverDuplicate | src/main/java/kz/it/patentparser/service/PatentService.java:245 | a record without security-document and registration number is never a duplicate, whatever the table holds |
| PatentService.RegistrationIgnoredWithSecurityDoc | src/main/java/kz/it/patentparser/service/PatentService.java:247-248 | with a security-document number set, changing the registration number never changes the answer |
| PatentService.CountAppend | src/main/java/kz/it/patentparser/service/PatentService.java:245-249 | appending a row adds one to a query's count exactly when that row matches |
| PatentService.SavedRecordIsDuplicate | src/main/java/kz/it/patentparser/service/PatentService.java:202-204 | a numbered record saved into a table with no match for it is recognised as a duplicate afterwards |
| PatentService.OtherSiteNeverMatches | src/main/java/kz/it/patentparser/service/PatentService.java:247-249 | a row from another site or category never turns a record into a duplicate |
| PatentService.GetPatentsByCategory | src/main/java/kz/it/patentparser/service/PatentService.java:184-191 | the display name of the category with the id for ids 1..5; IllegalArgumentException for every other id |
| PatentService.FirstValue | src/main/java/kz/it/patentparser/service/PatentService.java:193-199 | the value of the first attribute with the label, none when no attribute carries it |
| PatentService.GetImageUrl | src/main/java/kz/it/patentparser/service/PatentService.java:193-199 | the first "Изображение" value; a record without a field list throws NullPointerException |
| PatentService.PatentRepository.constructor | src/main/java/kz/it/patentparser/service/PatentService.java:202-209 | an empty patent table and an empty field table |
| PatentService.PatentRepository.SavePatent | src/main/java/kz/it/patentparser/service/PatentService.java:202-204 | the record is appended and gets the next id |
| PatentService.PatentRepository.SavePatents | src/main/java/kz/it/patentparser/service/PatentService.java:207-209 | the records are appended in list order |
| PatentService.PatentRepository.SaveAdditionalField | src/main/java/kz/it/patentparser/service/PatentService.java:211-221 | an unknown id is EntityNotFoundException with nothing stored; otherwise exactly one field owned by that record is stored |
| PatentService.OptionalValue | src/main/java/kz/it/patentparser/service/PatentService.java:175-177 | a value is its own cell, null the empty cell |
| PatentService.OptionalDate | src/main/java/kz/it/patentparser/service/PatentService.java:179-181 | null is the empty cell; a valid date with a year 1..9999 is the ten-character `yyyy-MM-dd` text, zero-padded |
| PatentService.StandardCells | src/main/java/kz/it/patentparser/service/PatentService.java:133-153 | one cell for each of the 19 standard columns |
| PatentService.AttributeLabels | src/main/java/kz/it/patentparser/service/PatentService.java:111-118 | exactly the labels occurring in an attribute list |
| PatentService.LabelsOfMeaning | src/main/java/kz/it/patentparser/service/PatentService.java:111-118 | exactly the labels occurring in some record's field list |
| PatentService.LeastExists | src/main/java/kz/it/patentparser/service/PatentService.java:121-122 | every non-empty set of labels has a least element under `String.compareTo` |
| PatentService.SortedListingExists | src/main/java/kz/it/patentparser/service/PatentService.java:121-122 | every finite set of labels has a strictly ascending listing |
| PatentService.SortedListingUnique | src/main/java/kz/it/patentparser/service/PatentService.java:121-122 | that listing is unique, so `Collections.sort` of the distinct labels has one result |
| PatentService.SortedLabels | src/main/java/kz/it/patentparser/service/PatentService.java:121-122 | the ascending listing of the collected labels |
| PatentService.LastValueMeaning | src/main/java/kz/it/patentparser/service/PatentService.java:156-160 | the value of the last attribute with the label, as `HashMap.put` in list order leaves it |
| PatentService.CsvDocumentParts | src/main/java/kz/it/patentparser/service/PatentService.java:100-170 | the file is the BOM, the header line, a line separator and the data lines |
| PatentService.SortLabels | src/main/java/kz/it/patentparser/service/PatentService.java:121-122 | the sort yields the ascending listing of the label set |
| PatentService.LeastOf | src/main/java/kz/it/patentparser/service/PatentService.java:121-122 | the least label of a non-empty set |
| PatentService.CollectLabels | src/main/java/kz/it/patentparser/service/PatentService.java:111-118 | the HashSet loop collects exactly the labels of all field lists |
| PatentService.WriteHeader | src/main/java/kz/it/patentparser/service/PatentService.java:125-129 | the standard columns, then each extension header, separated by ";" |
| PatentService.FieldMap | src/main/java/kz/it/patentparser/service/PatentService.java:156-160 | the per-record map answers each label with its last value in list order |
| PatentService.BuildRow | src/main/java/kz/it/patentparser/service/PatentService.java:132-167 | the rowData list: the standard cells, then one cell per extension header |
| PatentService.ExtensionHeaders | src/main/java/kz/it/patentparser/service/PatentService.java:111-122 | the distinct labels over all records, in ascending order |
| PatentService.WriteRows | src/main/java/kz/it/patentparser/service/PatentService.java:132-170 | one line per record in order, each ended by the line separator |
| PatentService.ExportToCsv | src/main/java/kz/it/patentparser/service/PatentService.java:93-172 | the whole text written to the response |
| PatentService.RowWidth | src/main/java/kz/it/patentparser/service/PatentService.java:132-167 | every row has 19 cells plus one per extension header |
| PatentService.ExtensionCellMeaning | src/main/java/kz/it/patentparser/service/PatentService.java:156-165 | an extension cell is empty without a field list, else the last value with that label or empty when there is none |
| PatentService.RowSplitsIntoCells | src/main/java/kz/it/patentparser/service/PatentService.java:169 | a row splits back into its cells at ';' when no cell holds ';' |
| PatentService.ValuesAreNotEscaped | src/main/java/kz/it/patentparser/service/PatentService.java:169 | a cell holding ';' no longer reads back as one cell: values are not escaped |
| PatentService.HeaderSplitsIntoColumns | src/main/java/kz/it/patentparser/service/PatentService.java:103-129 | the header line reads back as the 19 standard columns followed by the extension labels |
| JavaText.Trim | src/main/java/kz/it/patentparser/service/PatentParserService.java:158 | `String.trim`: the longest infix neither starting nor ending with a character up to U+0020 |
| JavaText.AfterLast | src/main/java/kz/it/patentparser/parser/GosReestrPatentParser.java:615 | `substring(lastIndexOf(c) + 1)`: the text after the last `c`, free of `c`, or the whole text without one |
| JavaText.Split | src/main/java/kz/it/patentparser/service/PatentParserService.java:155 | `split` on one character with limit 0: the pieces between separators, trailing empty pieces removed |
| JavaText.IntToString | src/main/java/kz/it/patentparser/service/PatentRetryService.java:119 | `Integer.toString`: a sign for negatives, then digits without leading zeros |
| JavaText.DecimalAvoids | src/main/java/kz/it/patentparser/service/PatentRetryService.java:119 | a decimal form holds no character other than digits and '-' |
| JavaText.ParseInt | src/main/java/kz/it/patentparser/service/PatentRetryService.java:46 | `Integer.parseInt` over ASCII digits: an optional sign, at least one digit, a 32-bit value; text outside that form is NumberFormatException |
| JavaText.ParseIntOfIntToString | src/main/java/kz/it/patentparser/service/PatentRetryService.java:46 | `parseInt` undoes `toString` on every 32-bit value |
| JavaText.LessTotal | src/main/java/kz/it/patentparser/service/PatentService.java:122 | `compareTo` orders any two different strings one way or the other, never both |
| JavaText.PiecesOfJoin | src/main/java/kz/it/patentparser/service/PatentService.java:125 | splitting a `String.join` at its separator gives the parts back when no part holds it |
| LocalDates.ParseDotted | src/main/java/kz/it/patentparser/parser/GosReestrPatentParser.java:751-775 | `LocalDate.parse` with dd.MM.yyyy: ten characters, range-checked fields, a day past month end clamped to the month's last day |
| LocalDates.FormatDotted | src/main/java/kz/it/patentparser/parser/GosReestrPatentParser.java:834-846 | the dd.MM.yyyy text of a date: the pattern's shape, with each field reading back |
| LocalDates.ParseFormatDotted | src/main/java/kz/it/patentparser/parser/GosReestrPatentParser.java:834-846 | every valid date with a four-digit year survives formatting then parsing |
| LocalDates.IsoStringShape | src/main/java/kz/it/patentparser/service/PatentService.java:179-181 | `LocalDate.toString` of a four-digit-year date is "yyyy-MM-dd", ten characters |
| LocalDates.IsoString | src/main/java/kz/it/patentparser/service/PatentService.java:179-181 | `LocalDate.toString`: the year zero-padded to four digits, with a sign when negative or longer than four digits, then "-MM-dd"; `IsoStringShape` states the ten-character form for years 1..9999 |
| TransliterationUtil.InvertTable | src/main/java/kz/it/patentparser/util/TransliterationUtil.java:67-69 | the inversion loop builds the reverse table by putting (value, key) for every entry in order |
| TransliterationUtil.InvertedKeysDistinct | src/main/java/kz/it/patentparser/util/TransliterationUtil.java:67-69 | the reverse table never repeats a key and is no longer than the table |
| TransliterationUtil.InvertedKeyIndex | src/main/java/kz/it/patentparser/util/TransliterationUtil.java:67-69 | the reverse table holds a key exactly for each value of the original |
| TransliterationUtil.GetInverted | src/main/java/kz/it/patentparser/util/TransliterationUtil.java:67-69 | the reverse table reads a value back as the key of the LAST entry producing it |
| TransliterationUtil.InvertedOrder | src/main/java/kz/it/patentparser/util/TransliterationUtil.java:67-69 | a value first produced earlier keeps an earlier position in the reverse table |
| TransliterationUtil.ReplaceAll | src/main/java/kz/it/patentparser/util/TransliterationUtil.java:89-94 | replacing the leftmost occurrence until none is left leaves no occurrence of the key |
| TransliterationUtil.Transliterate | src/main/java/kz/it/patentparser/util/TransliterationUtil.java:84-96 | the nested StringBuilder loops: null stays null, otherwise each entry in order replaced until its key is gone |
| TransliterationUtil.EmptyStaysEmpty | src/main/java/kz/it/patentparser/util/TransliterationUtil.java:85-87 | the empty text comes back unchanged |
| TransliterationUtil.TransliteratedKeepsAbsent | src/main/java/kz/it/patentparser/util/TransliterationUtil.java:89-94 | a character absent from the text that no entry writes stays absent |
| TransliterationUtil.SingleKeyRemoved | src/main/java/kz/it/patentparser/util/TransliterationUtil.java:89-94 | a one-character key removes its character for good unless a later entry writes it |
| TransliterationUtil.UntouchedText | src/main/java/kz/it/patentparser/util/TransliterationUtil.java:89-94 | a text holding no character of any key passes unchanged |
| TransliterationUtil.ShadowedEntryIsDead | src/main/java/kz/it/patentparser/util/TransliterationUtil.java:89-94 | an entry whose key needs a character an earlier one-character key removed never fires |
| TransliterationUtil.CapitalsAllReplaced | src/main/java/kz/it/patentparser/util/TransliterationUtil.java:89-94 | a table with a one-letter entry for every Latin capital, writing none, leaves no Latin capital |
| TransliterationUtil.LatinCapitalsAllReplaced | src/main/java/kz/it/patentparser/util/TransliterationUtil.java:17-56 | Latin-to-Cyrillic output holds no Latin capital A–Z, whatever the text |
| TransliterationUtil.SchReadsAsShcha | src/main/java/kz/it/patentparser/util/TransliterationUtil.java:17-31 | "SCH" becomes "Щ": the digraph entries fire before the single letters |
| TransliterationUtil.LatinTableReversible | src/main/java/kz/it/patentparser/util/TransliterationUtil.java:17-56 | the Latin table's values are non-empty and share no character with their keys, so the replace-until-absent loop ends |
| TransliterationUtil.KaReadsBackAsQ | src/main/java/kz/it/patentparser/util/TransliterationUtil.java:67-69 | К, reached from C, K and Q, reads back as Q |
| TransliterationUtil.VeReadsBackAsW | src/main/java/kz/it/patentparser/util/TransliterationUtil.java:67-69 | В, reached from V and W, reads back as W |
| TransliterationUtil.KsReadsBackAsX | src/main/java/kz/it/patentparser/util/TransliterationUtil.java:67-69 | "КС" reads back as X |
| TransliterationUtil.KaPrecedesKs | src/main/java/kz/it/patentparser/util/TransliterationUtil.java:67-69 | in the reverse table the "К" entry comes before the "КС" entry |
| TransliterationUtil.KsEntryNeverFires | src/main/java/kz/it/patentparser/util/TransliterationUtil.java:67-69 | so Cyrillic-to-Latin never uses the "КС" entry: dropping it changes no output |
| TransliterationUtil.TransliterateLatinToCyrillic | src/main/java/kz/it/patentparser/util/TransliterationUtil.java:72-74 | the Latin-to-Cyrillic wrapper is transliterate over the Latin table |
| TransliterationUtil.TransliterateKazakhToRussian | src/main/java/kz/it/patentparser/util/TransliterationUtil.java:76-78 | the Kazakh-to-Russian wrapper is transliterate over the Kazakh table |
| TransliterationUtil.TransliterateCyrillicToLatin | src/main/java/kz/it/patentparser/util/TransliterationUtil.java:80-82 | the Cyrillic-to-Latin wrapper is transliterate over the reverse table |
| TransliterationUtil.KazakhToRussianPerLetter | src/main/java/kz/it/patentparser/util/TransliterationUtil.java:58-65 | exactly the eight Kazakh-only letters are replaced, each by its Russian stand-in; the length is kept |
| TransliterationUtil.FixMixedCharacters | src/main/java/kz/it/patentparser/util/TransliterationUtil.java:102-109 | null stays null; otherwise each character is repaired on its own and the length is kept |
| TransliterationUtil.FixCharMeaning | src/main/java/kz/it/patentparser/util/TransliterationUtil.java:10-14 | exactly the eleven Cyrillic look-alikes change, each into a Latin capital; repairing twice is repairing once |
| TransliterationUtil.FixChar | src/main/java/kz/it/patentparser/util/TransliterationUtil.java:10-14 | `MIXED_CHAR_FIX.getOrDefault(c, c)`; `FixCharMeaning` states which characters change and into what |
| TransliterationUtil.IsLatinMeaning | src/main/java/kz/it/patentparser/util/TransliterationUtil.java:98-100 | `matches(".*[A-Za-z].*")` holds exactly for a single-line text with an ASCII letter |
| TransliterationUtil.IsLatin | src/main/java/kz/it/patentparser/util/TransliterationUtil.java:98-100 | `matches(".*[A-Za-z].*")` as a split of the whole text into two line-terminator-free parts around one ASCII letter; `IsLatinMeaning` restates it as a single line holding an ASCII letter |
| GosReestrDetails.LastCloseOnLine | src/main/java/kz/it/patentparser/parser/GosReestrPatentParser.java:638 | the end of a greedy `\(.*\)` match: the last ')' before the line's end, none when there is none |
| GosReestrDetails.StripParens | src/main/java/kz/it/patentparser/parser/GosReestrPatentParser.java:638 | `replaceAll("\\(.*\\)", "")`: each '(' with a later ')' on its line is deleted up to the last one |
| GosReestrDetails.StripParensLeavesNoPair | src/main/java/kz/it/patentparser/parser/GosReestrPatentParser.java:638 | after the replacement no '(' is followed on its line by ')' |
| GosReestrDetails.NormalizedLabelHasNoPair | src/main/java/kz/it/patentparser/parser/GosReestrPatentParser.java:633-638 | a cleaned label (trim, replace, trim) has no bracketed part |
| GosReestrDetails.AuthorsLabelUnreachable | src/main/java/kz/it/patentparser/parser/GosReestrPatentParser.java:633-648 | no raw label cleans up to "Автор(-ы)", so the authors setter branch is dead |
| GosReestrDetails.CoreProperty | src/main/java/kz/it/patentparser/parser/GosReestrPatentParser.java:823-826 | a label has a property exactly when isCoreField accepts it; only "Автор(-ы)" writes the authors |
| GosReestrDetails.LookupFirst | src/main/java/kz/it/patentparser/parser/GosReestrPatentParser.java:736-790 | the switch answers a label with its first table entry |
| GosReestrDetails.ParseDate | src/main/java/kz/it/patentparser/parser/GosReestrPatentParser.java:751 | a date setter succeeds exactly when the text parses as dd.MM.yyyy |
| GosReestrDetails.SetCoreField | src/main/java/kz/it/patentparser/parser/GosReestrPatentParser.java:736-790 | writes exactly the selected property; text properties take the value, dates parse the whole value, the registration date only its first ten characters (shorter throws) |
| GosReestrDetails.ItemEffectOf | src/main/java/kz/it/patentparser/parser/GosReestrPatentParser.java:633-651 | an item becomes a core setter call (never the authors), an attribute with a non-empty non-core label, or nothing |
| GosReestrDetails.Effects | src/main/java/kz/it/patentparser/parser/GosReestrPatentParser.java:632-652 | one effect per list item, in document order |
| GosReestrDetails.BuildDetail | src/main/java/kz/it/patentparser/parser/GosReestrPatentParser.java:623-663 | the loop over the `li` items builds the detail record of the page |
| GosReestrDetails.ApplyItem | src/main/java/kz/it/patentparser/parser/GosReestrPatentParser.java:647-651 | one item: a setter call on the record or one appended attribute |
| GosReestrDetails.ApplyEffectsAbortPersists | src/main/java/kz/it/patentparser/parser/GosReestrPatentParser.java:647-648 | once a setter throws, no later item changes the outcome |
| GosReestrDetails.ApplyEffectsKeeps | src/main/java/kz/it/patentparser/parser/GosReestrPatentParser.java:632-652 | the items never touch document number, category, site, image, name or authors; every attribute label is non-empty and non-core |
| GosReestrDetails.DetailNeverSetsAuthors | src/main/java/kz/it/patentparser/parser/GosReestrPatentParser.java:623-663 | a detail record has no authors, the requested document number, category and site, the page's image and a field list |
| GosReestrDetails.EmptyItemIsSkipped | src/main/java/kz/it/patentparser/parser/GosReestrPatentParser.java:640-642 | an item with an empty label or value is skipped |
| GosReestrDetails.ExtraItemAppends | src/main/java/kz/it/patentparser/parser/GosReestrPatentParser.java:649-651 | a non-core item appends exactly its attribute after those already read |
| GosReestrDetails.EmptyItemSkipped | src/main/java/kz/it/patentparser/parser/GosReestrPatentParser.java:640-642 | an empty item leaves the page's record as it was |
| GosReestrDetails.Pick | src/main/java/kz/it/patentparser/parser/GosReestrPatentParser.java:528-576 | the detail value when non-null, else the summary value |
| GosReestrDetails.MergeNeedsDetail | src/main/java/kz/it/patentparser/parser/GosReestrPatentParser.java:523-527 | merging fails (null dereference) exactly when there is no detail |
| GosReestrDetails.MergeNeverCopies | src/main/java/kz/it/patentparser/parser/GosReestrPatentParser.java:523-581 | the classification, category, site and name are never taken from the detail |
| GosReestrDetails.MergeDetailWins | src/main/java/kz/it/patentparser/parser/GosReestrPatentParser.java:528-576 | for every merged property a present detail value wins and an absent one keeps the summary's |
| GosReestrDetails.MergeIsIdempotent | src/main/java/kz/it/patentparser/parser/GosReestrPatentParser.java:523-581 | merging the same detail twice equals merging it once |
| GosReestrDetails.MergeWithBlankDetail | src/main/java/kz/it/patentparser/parser/GosReestrPatentParser.java:523-581 | a detail with nothing set leaves the summary record as it was |
| GosReestrDetails.MergeOfDetailRecord | src/main/java/kz/it/patentparser/parser/GosReestrPatentParser.java:574-580 | merging a page's record replaces the summary's field list, sets the document number and keeps the card's authors |
| GosReestrDetails.DocNumberOf | src/main/java/kz/it/patentparser/parser/GosReestrPatentParser.java:615 | the text after the last '=' of the URL (the whole URL without one), holding no '=' |
| GosReestrDetails.FetchRun | src/main/java/kz/it/patentparser/parser/GosReestrPatentParser.java:613-687 | the retry loop over connection outcomes; a ledger write happens only with a null result |
| GosReestrDetails.FetchPatentDetails | src/main/java/kz/it/patentparser/parser/GosReestrPatentParser.java:613-687 | the loop's result, and the ledger gains (category, docNumber, false) exactly on HTTP 500 or an I/O error |
| GosReestrDetails.FetchedDetailNamesDocument | src/main/java/kz/it/patentparser/parser/GosReestrPatentParser.java:623-663 | a fetched record names the requested document, has no authors and has a field list |
| GosReestrDetails.ThreeTimeoutsGiveUp | src/main/java/kz/it/patentparser/parser/GosReestrPatentParser.java:665-668 | three socket timeouts give null and write nothing |
| GosReestrDetails.StatusRetryIsFree | src/main/java/kz/it/patentparser/parser/GosReestrPatentParser.java:669-677 | a status other than 500 is retried without spending an attempt |
| GosReestrDetails.StatusLoopNeverEnds | src/main/java/kz/it/patentparser/parser/GosReestrPatentParser.java:669-677 | a server that keeps answering with such a status keeps the loop going however long it runs |
| GosReestrDetails.FetchEndsWithoutStatusRetries | src/main/java/kz/it/patentparser/parser/GosReestrPatentParser.java:616-685 | without such statuses the loop ends within as many outcomes as it has attempts |
| GosReestrDetails.NormalizeLabel | src/main/java/kz/it/patentparser/parser/GosReestrPatentParser.java:633-638 | the label an item is filed under: the bold text trimmed, bracketed parts removed, trimmed again; `NormalizedLabelHasNoPair` states that no bracketed pair is left |
| GosReestrDetails.IsCoreField | src/main/java/kz/it/patentparser/parser/GosReestrPatentParser.java:823-826 | a label is core exactly when it is a key of the label-to-property table; `LookupLabel` and `ApplyEffectsKeeps` state that such items never become extension attributes |
| GosReestrDetails.DetailRecord | src/main/java/kz/it/patentparser/parser/GosReestrPatentParser.java:623-663 | fetchPatentDetails' record for a downloaded page: number, category and site set, each item's effect applied in order, the image when found, the extension attributes attached; `DetailNeverSetsAuthors` and `FetchDownloaded` state its use |
| GosReestrDetails.MergePatentData | src/main/java/kz/it/patentparser/parser/GosReestrPatentParser.java:523-581 | each copied property takes the detail's value when not null and keeps the card's otherwise; a null detail is the thrown exception; `MergeNeedsDetail`, `MergeDetailWins` and `MergeIsIdempotent` state it |
| GosReestrCards.RestOfLine | src/main/java/kz/it/patentparser/parser/GosReestrPatentParser.java:830 | what `(.*)` captures: the text up to the first line terminator |
| GosReestrCards.GetFieldValue | src/main/java/kz/it/patentparser/parser/GosReestrPatentParser.java:828-832 | null exactly when the key never occurs; otherwise a trimmed single-line value |
| GosReestrCards.DateTextFrom | src/main/java/kz/it/patentparser/parser/GosReestrPatentParser.java:835-838 | the first key occurrence followed by a dd.dd.dddd group; the group has that shape |
| GosReestrCards.GetDateField | src/main/java/kz/it/patentparser/parser/GosReestrPatentParser.java:834-846 | the parsed date of the first matched group, null when the formatter rejects it |
| GosReestrCards.LeadingKeyIsFound | src/main/java/kz/it/patentparser/parser/GosReestrPatentParser.java:828-832 | a card starting with the key is read from just after it |
| GosReestrCards.RenderedFieldReadsBack | src/main/java/kz/it/patentparser/parser/GosReestrPatentParser.java:828-832 | a field printed as "key: value" reads back as its value |
| GosReestrCards.RenderedAuthorsReadBack | src/main/java/kz/it/patentparser/parser/GosReestrPatentParser.java:809 | the authors' line "Автор(-ы): value" reads back as its value |
| GosReestrCards.RenderedDateReadsBack | src/main/java/kz/it/patentparser/parser/GosReestrPatentParser.java:834-846 | a date printed as "key: dd.MM.yyyy" reads back as that date |
| GosReestrCards.Repaired | src/main/java/kz/it/patentparser/parser/GosReestrPatentParser.java:805 | fixMixedCharacters of an optional title: null stays null |
| GosReestrCards.ExtractPatentData | src/main/java/kz/it/patentparser/parser/GosReestrPatentParser.java:793-821 | the card's record: site, category, repaired title, bulletin number and date, authors and variety name |
| GosReestrCards.CardRecord | src/main/java/kz/it/patentparser/parser/GosReestrPatentParser.java:793-821 | extractPatentData's record: registry site and category, the repaired title (the sort name when there is no title), and the other card fields read by key; `CardTitle` and `CardRecordIsNeverValid` state its properties |
| GosReestrCards.CardTitle | src/main/java/kz/it/patentparser/parser/GosReestrPatentParser.java:805-816 | the title is the repaired "Название" value, else the variety name; missing only when both are |
| GosReestrCards.CardRecordIsNeverValid | src/main/java/kz/it/patentparser/parser/GosReestrPatentParser.java:793-821 | a card record on its own has no status and no document numbers, so it never passes the validator |
| GosReestrCards.CollectCards | src/main/java/kz/it/patentparser/parser/GosReestrPatentParser.java:364-390 | the card-wait loop: the first list shown, none after a timeout, a missing element or three stale references |
| GosReestrCards.ThreeStaleWaitsFindNothing | src/main/java/kz/it/patentparser/parser/GosReestrPatentParser.java:382-389 | three stale references in a row leave the page without cards |
| GosReestrCards.ParseCardAttempt | src/main/java/kz/it/patentparser/parser/GosReestrPatentParser.java:403-462 | one try at a card, with the ledger writes it makes |
| GosReestrCards.CardRunSettles | src/main/java/kz/it/patentparser/parser/GosReestrPatentParser.java:402-463 | a card's run always finishes or hangs: the third stale reference is not retried |
| GosReestrCards.AttemptAdmits | src/main/java/kz/it/patentparser/parser/GosReestrPatentParser.java:403-440 | the ledger only grows; an added record passed the duplicate check and the validator, carries the link's document number and the card's authors, and is in the ledger when the database is reachable |
| GosReestrCards.CardRunAdmits | src/main/java/kz/it/patentparser/parser/GosReestrPatentParser.java:402-463 | the same over a card's retries |
| GosReestrCards.PageRunAdmits | src/main/java/kz/it/patentparser/parser/GosReestrPatentParser.java:397-465 | every record a page yields is admitted and ledgered when the database is reachable; the ledger only grows and its keys stay unique |
| GosReestrCards.StoredDuplicateLeavesNoTrace | src/main/java/kz/it/patentparser/parser/GosReestrPatentParser.java:424-428 | a card whose merged record is already stored adds nothing and writes nothing |
| GosReestrCards.NullDetailAddsNothing | src/main/java/kz/it/patentparser/parser/GosReestrPatentParser.java:420-422 | a null detail makes the merge throw, so the card adds nothing |
| GosReestrCards.Gate | src/main/java/kz/it/patentparser/parser/GosReestrPatentParser.java:424-443 | after the merge, a stored duplicate or a lookup that throws is skipped with no ledger write; a valid record is added and recorded as parsed; an invalid one is recorded as not parsed; `StoredDuplicateLeavesNoTrace` and `AttemptAdmits` build on it |
| GosReestrCards.PageRun | src/main/java/kz/it/patentparser/parser/GosReestrPatentParser.java:397-465 | the cards of a page in order, each with its retries, where a detail fetch that never ends stops the page; `PageRunKeeps` and `PageRunAdmits` state that the ledger only grows and each yielded record is admitted |
| GosReestrCards.ParsePatents | src/main/java/kz/it/patentparser/parser/GosReestrPatentParser.java:360-466 | parsePatents: the records and ledger the page run specifies, and whether a detail fetch never ended |
| GosReestrCards.TakeCard | src/main/java/kz/it/patentparser/parser/GosReestrPatentParser.java:397-464 | one card of the page: it hangs the page, or it adds at most one record before the rest |
| GosReestrCards.TryCard | src/main/java/kz/it/patentparser/parser/GosReestrPatentParser.java:402-463 | one try: the card's run ends, or goes on from the next try |
| GosReestrCards.ParseCard | src/main/java/kz/it/patentparser/parser/GosReestrPatentParser.java:402-463 | the retry loop for one card |
| GosReestrPagination.GetLastPage | src/main/java/kz/it/patentparser/parser/GosReestrPatentParser.java:236-248 | the last button's number; 1000 when the buttons never appear; a non-number throws |
| GosReestrPagination.LastPageReadsButton | src/main/java/kz/it/patentparser/parser/GosReestrPatentParser.java:241 | a button showing a page number in decimal reads back as that number |
| GosReestrPagination.Half | src/main/java/kz/it/patentparser/parser/GosReestrPatentParser.java:302-304 | Java's `int / 2`, truncating toward zero |
| GosReestrPagination.Run | src/main/java/kz/it/patentparser/parser/GosReestrPatentParser.java:309-356 | the sweep over iteration outcomes: harvest, click, move, stop test after the move |
| GosReestrPagination.Paginate | src/main/java/kz/it/patentparser/parser/GosReestrPatentParser.java:295-358 | the loop's harvested pages and its end are the sweep from the start pager with stopping page lastPage/2 |
| GosReestrPagination.ShouldStop | src/main/java/kz/it/patentparser/parser/GosReestrPatentParser.java:336-341 | the both-mode stop, made after the counter has moved: backward at or below the stopping page, forward at or above it as written (strictly above under the corrected rule); `TenPagesMissPageFive` and `CorrectedHalvesCoverEveryPage` state what each rule leaves unharvested |
| GosReestrPagination.ForwardRun | src/main/java/kz/it/patentparser/parser/GosReestrPatentParser.java:309-346 | a clean forward sweep harvests the pages from its start up to ForwardLast, in order |
| GosReestrPagination.BackwardRun | src/main/java/kz/it/patentparser/parser/GosReestrPatentParser.java:309-346 | a clean backward sweep harvests the pages from its start down to BackwardLast, in order |
| GosReestrPagination.MiddlePageMissed | src/main/java/kz/it/patentparser/parser/GosReestrPatentParser.java:336-341 | with at least four pages, neither half of a both-mode crawl harvests page lastPage/2 |
| GosReestrPagination.TenPagesMissPageFive | src/main/java/kz/it/patentparser/parser/GosReestrPatentParser.java:336-341 | with ten pages, page 5 is never harvested |
| GosReestrPagination.CorrectedHalvesCoverEveryPage | src/main/java/kz/it/patentparser/parser/GosReestrPatentParser.java:336-341 | with a strict forward stop, every page 1..lastPage is harvested, and with two or more pages by one half only |
| GosReestrPagination.SingleForwardSweepHarvestsAll | src/main/java/kz/it/patentparser/parser/GosReestrPatentParser.java:331-346 | without both-mode a clean forward sweep harvests every page and ends at the missing button |
| GosReestrPagination.FallbackForwardHarvestsAll | src/main/java/kz/it/patentparser/parser/GosReestrPatentParser.java:304 | with the 1000-page fallback and under 500 real pages, a both-mode forward sweep harvests every page |
| GosReestrPagination.UnsavedRetryRepeatsPage | src/main/java/kz/it/patentparser/parser/GosReestrPatentParser.java:350-354 | an iteration that throws before saving and does not end the sweep changes nothing |
| GosReestrPagination.LateFaultDesynchronisesCounter | src/main/java/kz/it/patentparser/parser/GosReestrPatentParser.java:332-335 | a throw after the click but before the counter moves leaves the counter one page behind the browser |
| PatentRetryService.CategorySegment | src/main/java/kz/it/patentparser/service/PatentRetryService.java:101-116 | the registry's URL segment of a category name; "" for any other name |
| PatentRetryService.SegmentsOfCategories | src/main/java/kz/it/patentparser/service/PatentRetryService.java:101-116 | each defined category has its own segment, except the well-known trade marks, which get none |
| PatentRetryService.GeneratePatentUrl | src/main/java/kz/it/patentparser/service/PatentRetryService.java:118-120 | the registry's detail address of a document number in a category |
| PatentRetryService.UrlRoundTrip | src/main/java/kz/it/patentparser/service/PatentRetryService.java:118-120 | the parser's docNumber extraction gives the number's decimal form, which parses back to the number |
| PatentRetryService.ReplayAttribute | src/main/java/kz/it/patentparser/service/PatentRetryService.java:138-146 | one item: the cleaned label and value (the link target for the two link labels), or nothing when either is empty |
| PatentRetryService.ReplayReadsLikeParser | src/main/java/kz/it/patentparser/service/PatentRetryService.java:138-146 | the replay skips exactly the items the parser skips and turns a core item into an attribute with the same value |
| PatentRetryService.ReplayFields | src/main/java/kz/it/patentparser/service/PatentRetryService.java:135-147 | the attribute list in page order, every label non-empty |
| PatentRetryService.ReadReplayPage | src/main/java/kz/it/patentparser/service/PatentRetryService.java:131-150 | the record built from a page: category, site and the attribute list only |
| PatentRetryService.ReplayRecordIsNeverDuplicate | src/main/java/kz/it/patentparser/service/PatentRetryService.java:131-150 | a replayed record has no numbers and no status, so it is never a duplicate |
| PatentRetryService.ReplayFetchRun | src/main/java/kz/it/patentparser/service/PatentRetryService.java:122-165 | the replay's loop cannot throw from its page reader; a record it returns has the category, a field list and no numbers or status |
| PatentRetryService.ReplayFetchMirrorsParser | src/main/java/kz/it/patentparser/service/PatentRetryService.java:122-165 | it ends as the parser's fetch does on the same outcomes, except that where the parser throws it yields a record |
| PatentRetryService.ReplayFetchPatentDetails | src/main/java/kz/it/patentparser/service/PatentRetryService.java:122-165 | the attempts loop over the connection outcomes |
| PatentRetryService.Marked | src/main/java/kz/it/patentparser/service/PatentRetryService.java:51-56 | `setParsed(true)` and save on one entry, nothing when the database is unreachable |
| PatentRetryService.ReplayEntryStep | src/main/java/kz/it/patentparser/service/PatentRetryService.java:45-62 | one pending entry: a non-numeric number stops the replay; otherwise the ledger keeps its length |
| PatentRetryService.EveryFetchedRecordIsSaved | src/main/java/kz/it/patentparser/service/PatentRetryService.java:49-57 | a fetched record is always new, so it is saved and the entry marked |
| PatentRetryService.EntryStepKeepsLedger | src/main/java/kz/it/patentparser/service/PatentRetryService.java:45-62 | one entry keeps every key, lowers no flag, raises only its own and only after a fetch gave a record, and appends only unrecognised records |
| PatentRetryService.ReplayOnlyRaisesFlags | src/main/java/kz/it/patentparser/service/PatentRetryService.java:41-65 | the replay never adds or drops an entry, never changes a key and never sets a flag back to false; the table only grows by unrecognised records |
| PatentRetryService.ParsedOnlyAfterFetch | src/main/java/kz/it/patentparser/service/PatentRetryService.java:43-58 | an entry the replay marks was pending and one of its fetches gave a record |
| PatentRetryService.ReplayKeepsKeysUnique | src/main/java/kz/it/patentparser/service/PatentRetryService.java:41-65 | a ledger with unique keys keeps them through the replay |
| PatentRetryService.RetryFailedPatents | src/main/java/kz/it/patentparser/service/PatentRetryService.java:41-65 | the ledger and table after the replay are those of the replay run over the unparsed entries |
| PatentRetryService.ReplayEntry | src/main/java/kz/it/patentparser/service/PatentRetryService.java:46-62 | one pending entry against the ledger and table; a stop leaves both unchanged |
| PatentRetryService.RowsWithDocNumber | src/main/java/kz/it/patentparser/service/PatentRetryService.java:90 | exactly the positions of the records with the document number |
| PatentRetryService.ImageDecision | src/main/java/kz/it/patentparser/service/PatentRetryService.java:85-99 | an image is saved only on the record with the entry's document number, and is the capture of the entry's address |
| PatentRetryService.ImageNeedsUniqueRecord | src/main/java/kz/it/patentparser/service/PatentRetryService.java:90-91 | two records with that document number mean no image is saved |
| PatentRetryService.ProcessPatentImage | src/main/java/kz/it/patentparser/service/PatentRetryService.java:85-99 | the image becomes one new field owned by that record; otherwise the field table is unchanged |
| PatentRetryService.EntryUrl | src/main/java/kz/it/patentparser/service/PatentRetryService.java:46 | the page address of a ledger entry when its document number reads as a Java int, none where `Integer.parseInt` throws; `EveryFetchedRecordIsSaved` builds on it |
| PatentParserService.FirstMatchingLineDecides | src/main/java/kz/it/patentparser/service/PatentParserService.java:156-159 | the first line starting with the label decides; later lines are ignored |
| PatentParserService.FirstLineValue | src/main/java/kz/it/patentparser/service/PatentParserService.java:156-161 | the trimmed rest of the first line starting with the label, "" when no line does; `FirstMatchingLineDecides` and `MissingLabelGivesEmpty` state both cases |
| PatentParserService.GetFieldValue | src/main/java/kz/it/patentparser/service/PatentParserService.java:154-162 | getFieldValue: the card split at each newline and read line by line; `LeadingFieldReadsBack` reads a printed value back |
| PatentParserService.MissingLabelGivesEmpty | src/main/java/kz/it/patentparser/service/PatentParserService.java:161 | no line starting with the label gives "" |
| PatentParserService.LeadingFieldReadsBack | src/main/java/kz/it/patentparser/service/PatentParserService.java:154-162 | a value printed on the first line after its label reads back trimmed, whatever later lines hold |
| PatentParserService.ExtractPatentData | src/main/java/kz/it/patentparser/service/PatentParserService.java:138-152 | the category is the document type; status and application number are the labelled lines' values |
| PatentParserService.CardDecision | src/main/java/kz/it/patentparser/service/PatentParserService.java:117-131 | saved exactly when the number is new and the status non-empty; skipped when stored once; the finder throws when stored twice |
| PatentParserService.NoStatusLineIsNeverSaved | src/main/java/kz/it/patentparser/service/PatentParserService.java:126 | a card without a "Статус: " line is never saved |
| PatentParserService.CardsOnlyAddNewValid | src/main/java/kz/it/patentparser/service/PatentParserService.java:114-135 | cards only append; each appended card is valid and of the category; application numbers stay unique |
| PatentParserService.StoredCardChangesNothing | src/main/java/kz/it/patentparser/service/PatentParserService.java:120-123 | a card whose application number is stored leaves the table as it is |
| PatentParserService.UniqueCount | src/main/java/kz/it/patentparser/service/PatentParserService.java:35-38 | in a table without repeats each number is counted at most once |
| PatentParserService.CardTable.Save | src/main/java/kz/it/patentparser/service/PatentParserService.java:127 | save appends one row |
| PatentParserService.CardTable.IsPatentExists | src/main/java/kz/it/patentparser/service/PatentParserService.java:35-38 | present when exactly one row has the number, absent for none, a throw for several |
| PatentParserService.CardTable.ParsePatents | src/main/java/kz/it/patentparser/service/PatentParserService.java:101-136 | the table after the card loop, and whether a lookup threw part way |
| EbulletinPatentParser.LabelledFields | src/main/java/kz/it/patentparser/parser/EbulletinPatentParser.java:226-252 | one attribute per label whose field is set, in label order, never more than the labels |
| EbulletinPatentParser.LabelledFieldsMeaning | src/main/java/kz/it/patentparser/parser/EbulletinPatentParser.java:226-252 | each attribute holds its label's field value, each set field has its attribute, and distinct labels give label order |
| EbulletinPatentParser.ConvertToEntity | src/main/java/kz/it/patentparser/parser/EbulletinPatentParser.java:212-256 | convertToEntity with this site and label table |
| EbulletinPatentParser.AddIfPresent | src/main/java/kz/it/patentparser/parser/EbulletinPatentParser.java:226-247 | a non-null value appends its attribute at the end, a null one nothing |
| EbulletinPatentParser.BulletinLabelsDistinct | src/main/java/kz/it/patentparser/parser/EbulletinPatentParser.java:226-252 | the eight labels are pairwise distinct |
| EbulletinPatentParser.ConvertedRecordCopiesDto | src/main/java/kz/it/patentparser/parser/EbulletinPatentParser.java:212-224 | conversion fails exactly when a date is missing or malformed; otherwise site, category, numbers and title are copied, both dates parsed, and no status |
| EbulletinPatentParser.ConvertedAttributesMeaning | src/main/java/kz/it/patentparser/parser/EbulletinPatentParser.java:226-252 | the attributes are the set fields in table order, each with its own value, and never an empty image |
| EbulletinPatentParser.PageBatches | src/main/java/kz/it/patentparser/parser/EbulletinPatentParser.java:133-160 | the batches one page yields, over the three categories, all of this date and page |
| EbulletinPatentParser.DateStopsAtFirstEmptyPage | src/main/java/kz/it/patentparser/parser/EbulletinPatentParser.java:130-167 | a date's page loop stops exactly on the first page without data; every page before it had data |
| EbulletinPatentParser.RowReading | src/main/java/kz/it/patentparser/parser/EbulletinPatentParser.java:118-180 | the stale-element retry gives the first read that is not stale, within three tries |
| EbulletinPatentParser.DateBatchesFrom | src/main/java/kz/it/patentparser/parser/EbulletinPatentParser.java:130-167 | a date's batches come in page order, none below the start and all before the stopping page |
| EbulletinPatentParser.PageCounterNeverResets | src/main/java/kz/it/patentparser/parser/EbulletinPatentParser.java:108 | the page counter only grows across dates, and all batches come in page order from page 1 |
| EbulletinPatentParser.ThreeStaleReadsSkipRow | src/main/java/kz/it/patentparser/parser/EbulletinPatentParser.java:118-180 | a row stale on three tries is skipped, with the page counter unchanged |
| EbulletinPatentParser.HarvestPage | src/main/java/kz/it/patentparser/parser/EbulletinPatentParser.java:133-160 | the category loop of one page |
| EbulletinPatentParser.HarvestDate | src/main/java/kz/it/patentparser/parser/EbulletinPatentParser.java:130-167 | the page loop of one date |
| EbulletinPatentParser.ReadRow | src/main/java/kz/it/patentparser/parser/EbulletinPatentParser.java:118-180 | the stale-element retry of one row |
| EbulletinPatentParser.ParseFromYear | src/main/java/kz/it/patentparser/parser/EbulletinPatentParser.java:107-189 | parseFromYear over the date rows |
| EbulletinPatentParser.EntityOf | src/main/java/kz/it/patentparser/parser/EbulletinPatentParser.java:212-256 | convertToEntity: the core fields copied, both dates parsed, the labelled extension attributes attached; none when a date does not parse; `ConvertedRecordCopiesDto` and `ConvertedAttributesMeaning` state it |
| EbulletinPatentParser.DatePages | src/main/java/kz/it/patentparser/parser/EbulletinPatentParser.java:130-167 | the page loop of one date: pages in order until the first without data, within a page budget; `DateStopsAtFirstEmptyPage` and `DateBatchesFrom` state where it stops and what it saves |
| EbulletinPatentParser.RowsFrom | src/main/java/kz/it/patentparser/parser/EbulletinPatentParser.java:107-189 | parseFromYear's row loop: each row read with up to three attempts and its date's pages walked, with the page counter carried over; `PageCounterNeverResets` and `ThreeStaleReadsSkipRow` state it |
| EbulletinPatentFetcher.ValueMixUp | src/main/java/kz/it/patentparser/parser/EbulletinPatentFetcher.java:188-211 | on a sample record, the as-written list stores null values where the corrected list stores the record's own |
| EbulletinPatentFetcher.ConvertToEntity | src/main/java/kz/it/patentparser/parser/EbulletinPatentFetcher.java:160-223 | convertToEntity, with each attribute carrying the field that guards it |
| EbulletinPatentFetcher.FetcherLabelsDistinct | src/main/java/kz/it/patentparser/parser/EbulletinPatentFetcher.java:175-219 | the fourteen labels are pairwise distinct |
| EbulletinPatentFetcher.FetcherAttributesCarryOwnValues | src/main/java/kz/it/patentparser/parser/EbulletinPatentFetcher.java:175-219 | attributes in table order, each with its own field's value; fields 181 and 510 appear when set; a description gives "description" and "referat" |
| EbulletinPatentFetcher.ConvertAllMeaning | src/main/java/kz/it/patentparser/parser/EbulletinPatentFetcher.java:93-99 | the list converts exactly when each record does, and then holds each record's conversion at its position |
| EbulletinPatentFetcher.ConvertAll | src/main/java/kz/it/patentparser/parser/EbulletinPatentFetcher.java:101-104 | the fetched records converted in order under the category name, where the first that does not convert fails the list; `ConvertAllMeaning` and `ConvertAllFailsFrom` state both outcomes |
| EbulletinPatentFetcher.YearsFrom | src/main/java/kz/it/patentparser/parser/EbulletinPatentFetcher.java:83-122 | the walk over the years from the y-th on, dates in order and categories in order within each; a failed date lookup ends it; `YearsFromExtends` states that the table and the returned list only grow |
| EbulletinPatentFetcher.AsWrittenFields | src/main/java/kz/it/patentparser/parser/EbulletinPatentFetcher.java:188-211 | the attributes as convertToEntity builds them: "description" carries field 33's value, and fields 181, 730, 526, 591 and 510 carry field 86's; `ValueMixUp` exhibits this |
| EbulletinPatentFetcher.ConvertAllFailsFrom | src/main/java/kz/it/patentparser/parser/EbulletinPatentFetcher.java:93-99 | a record that fails fails the whole list |
| EbulletinPatentFetcher.ParseAllReturnsLastBatch | src/main/java/kz/it/patentparser/parser/EbulletinPatentFetcher.java:63-130 | the table only grows, by records of the bulletin's categories, and the result is the last list fetched, not everything saved |
| EbulletinPatentFetcher.ConvertFetched | src/main/java/kz/it/patentparser/parser/EbulletinPatentFetcher.java:93-99 | the stream of conversions |
| EbulletinPatentFetcher.FetchCategory | src/main/java/kz/it/patentparser/parser/EbulletinPatentFetcher.java:92-125 | one category of one date; a non-empty list is appended to the table |
| EbulletinPatentFetcher.FetchDate | src/main/java/kz/it/patentparser/parser/EbulletinPatentFetcher.java:92-126 | the three categories of one date in order |
| EbulletinPatentFetcher.FetchYear | src/main/java/kz/it/patentparser/parser/EbulletinPatentFetcher.java:86-127 | the dates of one year in order |
| EbulletinPatentFetcher.ParseAll | src/main/java/kz/it/patentparser/parser/EbulletinPatentFetcher.java:63-130 | parseAll over the patent table |
| PatentFetcherService.RangeClosedElements | src/main/java/kz/it/patentparser/service/PatentFetcherService.java:30 | `rangeClosed` holds each integer from lo to hi at its offset |
| PatentFetcherService.ServiceYearsAreFetcherYears | src/main/java/kz/it/patentparser/service/PatentFetcherService.java:30 | the service walks exactly the years 2018..2025, as the bulletin fetcher does |
| PatentFetcherService.DatesUrlReadsBack | src/main/java/kz/it/patentparser/service/PatentFetcherService.java:69 | the year is the text after the last '=' of the dates address and parses back as the year |
| PatentFetcherService.CategoryUrlPieces | src/main/java/kz/it/patentparser/service/PatentFetcherService.java:86 | the category address splits at '/' into the base address's segments, then the path, the index and the date |
| PatentFetcherService.ImageUrlReadsBack | src/main/java/kz/it/patentparser/service/PatentFetcherService.java:108 | the id is the last segment of its image address and parses back as the id |
| PatentFetcherService.AddTrademarkImageIfNeeded | src/main/java/kz/it/patentparser/service/PatentFetcherService.java:103-120 | only a trade mark with an id fetches its image; a failed request keeps the record; an empty answer drops it; only the image changes |
| PatentFetcherService.ConvertToEntity | src/main/java/kz/it/patentparser/service/PatentFetcherService.java:125-153 | convertToEntity with the full API address as the site |
| PatentFetcherService.ConvertsLikeHarvester | src/main/java/kz/it/patentparser/service/PatentFetcherService.java:125-153 | the service converts a record as the page-walking harvester does, except for the site |
| PatentFetcherService.EntryUrlSwapsIndexAndDate | src/main/java/kz/it/patentparser/service/PatentFetcherService.java:51 | as written, the address carries the date in the index position whenever the two differ |
| PatentFetcherService.EntryUrlReadsBack | src/main/java/kz/it/patentparser/service/PatentFetcherService.java:81-86 | the corrected address reads back as the path, then the index, then the date |
| PatentFetcherService.Stage | src/main/java/kz/it/patentparser/service/PatentFetcherService.java:51-55 | corrected stage: the stored record carries the category it was fetched under and the API address, and an empty image answer for a trade mark drops it. None stands for two outcomes: a dropped record, and a conversion that throws, which in the Java ends the whole stream |
| PatentFetcherService.DateKeyTakesCategoryPlace | src/main/java/kz/it/patentparser/service/PatentFetcherService.java:51-55 | as written, a trade mark's stored category is the bulletin index and its image is never fetched; corrected, the category is kept and the image is added |
| PatentFetcherService.DatesUrl | src/main/java/kz/it/patentparser/service/PatentFetcherService.java:69 | the address starts with the dates path and `year=`; `DatesUrlReadsBack` reads the year back from its end |
| PatentFetcherService.CategoryUrl | src/main/java/kz/it/patentparser/service/PatentFetcherService.java:86 | the address starts with the API base; `CategoryUrlPieces` splits it back into category path, index and date |
| PatentFetcherService.ImageUrl | src/main/java/kz/it/patentparser/service/PatentFetcherService.java:108 | the address starts with the image path; `ImageUrlReadsBack` reads the id back from its last segment |
| PatentFetcherService.AsWrittenEntryUrl | src/main/java/kz/it/patentparser/service/PatentFetcherService.java:81-86 | the category address as fetchPatents passes the date entry: key and value swapped, so the date sits where the index belongs; `EntryUrlSwapsIndexAndDate` exhibits it |
| PatentFetcherService.AsWrittenStage | src/main/java/kz/it/patentparser/service/PatentFetcherService.java:51-55 | the stage as written, where the date key travels on as the category; `DateKeyTakesCategoryPlace` exhibits the effect |

## Left out

- Selenium page driving is not modelled: category selection, scrolling, alerts, the text view, page size, stepping to the last page, `setFilterByDate`. Each wait, click and element lookup is an outcome oracle.
- `GosReestrPatentParser.parseAll`/`parseFrom` and `PatentParserService.parseAllCategories` are left out: they only select each category in the browser and call the modelled page loops.
- The category loops in `EbulletinPatentParser.parseAll` are left out for the same reason.
- `parseCategory` and `parseFrom` of both bulletin parsers are left out: they are stubs returning an empty list or null.
- `savePatentData` of the bulletin parser is represented by the list of saved batches; the fetcher's by the append to the patent table.
- HTTP, JSON and the reactive pipeline are not modelled (Jsoup, `PatentApiClient`, WebClient, Flux/Mono). Their answers are parameters.
- Of `PatentFetcherService.fetchPatents`, only one record's way through the stage is modelled (`AsWrittenStage`/`Stage`).
- The scheduling and concurrency of the `flatMap` stages are not modelled.
- `CATEGORIES` is a `Map.of` whose iteration order is unspecified; the model uses declaration order.
- Concurrency is not modelled: the executor of `fetchMissingImages`, the processor thread pools, and `synchronized` on `saveDocNumber`. Operations are single-threaded.
- The screenshot capture is the parameter `capture`. Base64 encoding and image file writes are left out.
- Logging and `Thread.sleep` delays are left out.
- The JPA query layer (JPQL, specifications, caching) is left out. A finder is a count of matching rows; several matches are the NonUniqueResult failure.
- `saveAllAdditionalFields` is left out: attributes travel inside the records saved.
- `GosReestrDetails.StatusLoopNeverEnds`, `GosReestrCards.ParsePatents`, `PatentRetryService.RetryFailedPatents`: the loops that can run without bound run over a finite outcome sequence and report "unfinished" when it runs out. A never-ending loop is stated through that report.
- `EbulletinPatentParser.ParseFromYear`: the page loop of a date takes a page budget, and a walk that exhausts it reports itself unfinished.
- `LocalDates.ParseDotted`: '+'-signed years and years beyond four digits are not accepted. The `dd.MM.yyyy` pattern requires four digits here.
- `GosReestrCards.GetFieldValue`: the `\s` in the Java string literal is the Java escape for a space, so the tail pattern is " *:? *".
- `PatentStorageService.DocNumberStore.SaveDocNumber` takes the three arguments the callers pass. The declared two-argument form with an `int` number does not match those calls. The document number is kept as the URL text.
- The owner back-reference of each attribute is implicit: an attribute belongs to the record holding it.
- `PatentParserService` builds records with the legacy eleven-argument constructor. They are modelled as their own `CardPatent` datatype.
- `PatentParserService.CardTable` stands for the shared patent table with only the card parser's rows. The bulletin walks save without checking duplicates, so in the Java the application-number finder can also meet their rows and throw NonUniqueResult; the model does not capture that.
- `GosReestrCards.ParsePatents` and `GosReestrCards.PageRun` fix the card loop's bound at the size of the first card list. The Java re-reads `size()` of the list it re-fetches after each card, so a page whose card count changes mid-loop is not modelled.
- `EbulletinPatentParser.ParseFromYear` and `EbulletinPatentParser.RowsFrom` fix the row loop's bound at the first row list's size. The Java re-locates the rows on each attempt and re-reads their count; a count that changes mid-loop is not modelled.
- `JavaText.ParseInt` accepts only the ASCII digits '0'..'9'. Java's `Character.digit` also accepts other Unicode decimal digits, which the model rejects.
- `JavaText.Less` and `JavaText.LessTotal` order strings by code point. Java's `compareTo` orders by UTF-16 unit; the two orders differ only between characters above U+FFFF and those in U+E000..U+FFFF.
- `EbulletinPatentFetcher.ParseAll` and the walk beneath it (`ConvertFetched`, `FetchCategory`, `FetchDate`, `FetchYear`) run the corrected converter. As written, field33 is stored under "description", field86 under several labels, and null values can be stored (`AsWrittenFields`). `ParseAllReturnsLastBatch` does not depend on attribute values, so it holds for the as-written converter too.
- `GosReestrPagination.Paginate` records the pages visited. The list `parsePatentsWithPagination` returns is never filled in the Java, so its callers always receive an empty list; the model does not return it.

## Findings

| source | as written | input that shows it | evidently intended | confidence | as-written member | corrected member |
|---|---|---|---|---|---|---|
| src/main/java/kz/it/patentparser/parser/GosReestrPatentParser.java:336-341 | the NEXT sweep stops on `currentPage >= stoppingPage` after moving, so page lastPage/2 is landed on but never harvested; the PREVIOUS sweep stops once it reaches that page too | lastPage = 10: the forward half harvests 1..4, the backward half 10..6, and page 5 is never harvested | the two halves of the both-mode crawl cover every page | high, not executed | GosReestrPagination.TenPagesMissPageFive | GosReestrPagination.CorrectedHalvesCoverEveryPage |
| src/main/java/kz/it/patentparser/parser/EbulletinPatentFetcher.java:188-211 | "description" stores field 33's value, and fields 181, 730, 526, 591 and 510 store field 86's value, each guarded by its own field | a record with an abstract and field 181 = "2" but no field 33 or 86 stores "description" and "field_181" with null values | each attribute carries the field that guards it | high, not executed | EbulletinPatentFetcher.ValueMixUp | EbulletinPatentFetcher.FetcherAttributesCarryOwnValues |
| src/main/java/kz/it/patentparser/service/PatentFetcherService.java:51-55 | the date entry's key, the bulletin index, travels on as the category, into the trade-mark image check and into the stored record | a trade mark with an id and no image fetched under index "1": stored with category "1", no image fetched | the category the record was fetched under | medium, not executed | PatentFetcherService.DateKeyTakesCategoryPlace | PatentFetcherService.Stage |
| src/main/java/kz/it/patentparser/service/PatentFetcherService.java:51,81-86 | `fetchPatentsByCategory(date, index)` receives the entry's key as `date` and its value as `index`, so the address reads /path/date/index | index "5", date "01.01.2024": /path/01.01.2024/5 | /path/5/01.01.2024, the order the bulletin API client uses | medium, not executed | PatentFetcherService.EntryUrlSwapsIndexAndDate | PatentFetcherService.EntryUrlReadsBack |

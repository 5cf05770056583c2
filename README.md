# A verified model of the game's configuration pipeline and game-logic core

This project models the logic core of a small Unity puzzle game in Dafny.

**The spreadsheet-to-config compiler (editor side).**
- It reads each sheet's three header rows into a field list.
- It writes a record class once per workbook.
- It turns sheet names into identifiers.
- It coerces every cell's text into a JSON fragment by the field's declared type, including CSV-style string arrays with quoted commas and doubled quotes.
- A formula cell whose cached result is a Boolean or an error cannot be read as text; the export of its sheet throws.
- It collects the rows of a sheet by id, last row winning.

**The runtime config registry (`ConfigManager`).**
- A map from type name to a bucket of id → record, filled from payload assets.
- Per-path loading that happens at most once.
- Id normalisation by trimming, with a warning logged once per id.
- `Get`, `Has`, `GetAll` and `Remove`, in both the generic and the `Type` forms.

**The localisation layer (`LocaleManager`).**
- It folds language records into language → (key → text).
- It picks the current language from a saved index and persists the choice.
- It falls back to the key when no text exists.
- It evicts its own bucket from the registry after loading.

**The preference store (`RuntimePrefs`).**
- An in-memory cache in front of a backing store that may fail.
- A memory-only mode, and a fallback to it on failure.
- `GameResetService`, its client, clears versioned prologue keys and, optionally, the language choice.

**The game-logic models.**
- The collect-only inventory and its item catalog.
- Puzzle-solved flags keyed by trimmed id, and the pickup condition that reads them.
- The prologue state machine.
- The mask state machine, the two-world switch and the mask-toggle step planner.
- The crack-stage clamp.
- Level index sequencing and the level-root switcher.
- The nine-point pattern locks: the validator, the decryption lock and the older UI lock.
- The safe's digit and roller passwords.
- An audio-clip cache that also caches missing clips.
- An audio lookup table with an `"else"` fallback.

**How the model is organised.**
- Each core source file becomes one Dafny module (`csv_array.dfy`, `config_registry.dfy`, `locale.dfy`, …).
- `text.dfy` and `maps.dfy` hold the shared string and map vocabulary: .NET's `Trim` and white-space set, ASCII lower-casing, `OrdinalIgnoreCase` folding, `Join`, and a last-write-wins fold of key/value pairs.
- Code that changes state step by step is modelled as classes with `modifies` clauses, or as methods with loops. Each is proved against a specification function.
- The properties the source promises are proved as lemmas about those functions: round trips, invariants kept, last-write-wins, idempotence, and "nothing else changes".
- C# `null` is `None` where the source tells it apart from an empty value. Where the source folds null and empty together (`IsNullOrEmpty`, `IsNullOrWhiteSpace`), the model uses `""`.
- A call that can throw returns `None` or a `false` flag.

## Model

| member | source | states |
|---|---|---|
| CsvArray.ParseCsvStyleArray | Assets/Editor/EditorUtils.cs:434-478 | the loop over `inQuotes`, the current item and the result list computes the scanner function `Parse`, and every element it returns is trimmed |
| CsvArray.ScanItemsTrimmed | Assets/Editor/EditorUtils.cs:459-475 | every item the scanner emits at a comma or at the end is trimmed |
| CsvArray.ParseItemsTrimmed | Assets/Editor/EditorUtils.cs:459-477 | every element of a parsed array is trimmed |
| CsvArray.ScanPlain | Assets/Editor/EditorUtils.cs:442-468 | outside quotes, text with no comma or quote is copied into the current item unchanged |
| CsvArray.ScanInsideQuotes | Assets/Editor/EditorUtils.cs:442-468 | inside quotes, text with no quote, commas included, is copied into the current item unchanged |
| CsvArray.TrimAll | Assets/Editor/EditorUtils.cs:459-475 | trimming a list element-wise keeps its length and trims each position |
| CsvArray.ParseOfScan | Assets/Editor/EditorUtils.cs:471-477 | a non-empty pending item after the last comma is trimmed and added; an empty one is dropped |
| CsvArray.ScanComma | Assets/Editor/EditorUtils.cs:459-464 | a comma outside quotes closes the current item, trimmed, and starts an empty one |
| CsvArray.ScanJoinPlain | Assets/Editor/EditorUtils.cs:434-478 | scanning plain elements joined by commas yields all but the last element, trimmed, with the last still pending |
| CsvArray.JoinPlainRoundTrip | Assets/Editor/EditorUtils.cs:434-478 | parsing plain elements joined by commas gives them back trimmed; leading and interior empty elements are kept and only an empty last element is dropped |
| CsvArray.JoinTrimmedRoundTrip | Assets/Editor/EditorUtils.cs:434-478 | for trimmed plain elements whose last one is non-empty, parsing their comma-join gives exactly the original list |
| CsvArray.QuoteAll | Assets/Editor/EditorUtils.cs:446-458 | wrapping each element in quotes keeps the list's length and wraps each position |
| CsvArray.ScanQuoted | Assets/Editor/EditorUtils.cs:442-468 | a quoted element containing no quote is read as its inside text, commas included |
| CsvArray.ScanJoinQuoted | Assets/Editor/EditorUtils.cs:434-478 | scanning quoted elements joined by commas yields the inner texts, trimmed, with the last still pending |
| CsvArray.JoinQuotedRoundTrip | Assets/Editor/EditorUtils.cs:434-478 | quoting elements that contain no quote, then joining them with commas, parses back to the elements trimmed: a quoted comma never splits |
| CsvArray.DoubledQuoteIsLiteral | Assets/Editor/EditorUtils.cs:446-458 | a doubled quote always adds one literal quote and leaves the in-quotes state as it was, inside or outside quotes |
| CsvArray.EmptyQuotedElement | Assets/Editor/EditorUtils.cs:446-458 | an array that opens with `""` starts with an element holding one literal quote, not with an empty element |
| SheetNames.Identify | Assets/Editor/EditorUtils.cs:392-417 | the mapped name keeps its length; every character is a letter, a digit or `_`, and the first is a letter or `_` |
| SheetNames.ReplaceDouble | Assets/Editor/EditorUtils.cs:420-424 | one `Replace("__", "_")` pass never lengthens the name, keeps its first character and adds no new character |
| SheetNames.ReplaceDoubleShrinks | Assets/Editor/EditorUtils.cs:420-424 | a pass shortens the name exactly when the name contains `"__"`, so the repeat loop ends |
| SheetNames.CollapseUnderscores | Assets/Editor/EditorUtils.cs:420-424 | after the repeat loop the name contains no `"__"`, is no longer than before and keeps its first character |
| SheetNames.TrimEndChar | Assets/Editor/EditorUtils.cs:425 | `TrimEnd('_')` leaves a prefix that does not end with `_`, and removes only underscores |
| SheetNames.SanitizeSheetName | Assets/Editor/EditorUtils.cs:385-429 | the string-builder loop, the replace loop and the fallbacks compute the sanitizing function `Sanitize` |
| SheetNames.SanitizeWellFormed | Assets/Editor/EditorUtils.cs:385-429 | the result is never empty, is made of letters, digits and `_`, starts with a letter or `_`, contains no `"__"` and does not end with `_` |
| SheetNames.ReplaceDoubleOfClean | Assets/Editor/EditorUtils.cs:420-424 | on a name without `"__"` a replace pass changes nothing |
| SheetNames.SanitizeIdempotent | Assets/Editor/EditorUtils.cs:385-429 | sanitizing a sanitized name changes nothing |
| ExcelSheets.HeaderColumns | Assets/Editor/EditorUtils.cs:147-162 | the column table has one entry per cell of the field-name row |
| ExcelSheets.ReadProperties | Assets/Editor/EditorUtils.cs:141-162 | the header check and column loop compute `ReadHeader`: a missing row 1 or cell 0 throws, a first cell other than `"id"` is refused, and otherwise the trimmed columns are read up to the first column whose trimmed name or type is empty, or to the end of the field row; a missing comment, name or type cell before that throws |
| ExcelSheets.ThenNothing | Assets/Editor/EditorUtils.cs:147-162 | prefixing no columns to a column result leaves it as it is |
| ExcelSheets.ThenAssoc | Assets/Editor/EditorUtils.cs:147-162 | prefixing column lists one after the other equals prefixing their concatenation |
| ExcelSheets.ColumnsAreLeadingRun | Assets/Editor/EditorUtils.cs:147-162 | the field list is exactly the leading run of columns with a non-empty trimmed name and type, in order, and stops at the first other column |
| ExcelSheets.HeaderStartsWithId | Assets/Editor/EditorUtils.cs:141-145 | an accepted sheet has `"id"` in row 1, cell 0, and its first field, when it has one, is named `id` |
| ExcelSheets.IdColumnName | Assets/Editor/EditorUtils.cs:141-153 | when cell 0 of the field-name row is `"id"`, the first column read is named `id` |
| ExcelSheets.BucketKeyIsClassName | Assets/Editor/EditorUtils.cs:165-174 | the registry's bucket key for a payload, its name before the first `_`, equals the generated class name exactly when the workbook name has no `_` |
| ConfigClass.BuildClassText | Assets/Editor/EditorUtils.cs:202-216 | the line-appending loop computes the class text `ClassText` |
| ConfigClass.NonId | Assets/Editor/EditorUtils.cs:205-215 | the declared fields other than `id` keep their order and come from the header |
| ConfigClass.Commented | Assets/Editor/EditorUtils.cs:208-213 | only fields with a non-empty comment get a summary block |
| ConfigClass.DeclLines | Assets/Editor/EditorUtils.cs:214 | one declaration line per field, in field order |
| ConfigClass.DeclsAppend | Assets/Editor/EditorUtils.cs:205-215 | the declarations of concatenated text are the concatenated declarations |
| ConfigClass.MemberDecls | Assets/Editor/EditorUtils.cs:205-215 | a field contributes exactly one declaration line, and `id` contributes none |
| ConfigClass.BodyDecls | Assets/Editor/EditorUtils.cs:205-215 | the declarations of the class body are one per non-`id` field, in declared order |
| ConfigClass.ClassDeclarations | Assets/Editor/EditorUtils.cs:202-216 | the generated class declares exactly the non-`id` fields, in declared order |
| ConfigClass.ClassLineCount | Assets/Editor/EditorUtils.cs:202-216 | the class has 3 frame lines (2 before the body, 1 after), one line per non-`id` field and 3 more per commented field |
| ConfigClass.BodyLineCount | Assets/Editor/EditorUtils.cs:205-215 | the body has one line per non-`id` field and 3 more per commented field |
| ConfigExport.WithClass | Assets/Editor/EditorUtils.cs:189-218 | the class folder after generation contains the new class name and otherwise the same files |
| ConfigExport.WithClassNeverOverwrites | Assets/Editor/EditorUtils.cs:196-200 | an existing class file keeps its text; a new one gets the generated class text |
| ConfigExport.Exporter.GenerateConfigClass | Assets/Editor/EditorUtils.cs:187-219 | the class folder gains the class file unless it exists; nothing else changes |
| ConfigExport.Exporter.ReadExcelSheets | Assets/Editor/EditorUtils.cs:135-182 | a refused header changes nothing; an accepted one records the workbook and generates its class only the first time that workbook name is seen |
| ConfigExport.Exporter.GenerateConfigJson | Assets/Editor/EditorUtils.cs:226-357 | without the record type nothing is written and the result is false; a cell whose read throws ends the export with nothing written; otherwise the payload file holds the sheet's collected rows |
| ConfigJson.JsonStrings | Assets/Editor/EditorUtils.cs:316-319 | each array element is quote-escaped and quoted, position by position |
| ConfigJson.CoerceCell | Assets/Editor/EditorUtils.cs:276-332 | a formula cell with a Boolean or error result throws; any other cell's text, with backslashes doubled or the formula result taken, is turned into its JSON fragment `Coerce` by the declared type |
| ConfigJson.BoolCoercion | Assets/Editor/EditorUtils.cs:288-332 | a `bool` cell becomes `"true"` or `"false"`, and `"false"` exactly for an empty cell, `0` or any casing of `false` |
| ConfigJson.BoolTextValues | Assets/Editor/EditorUtils.cs:288-308 | before quoting, a `bool` value is `true` or `false`, false for exactly those inputs |
| ConfigJson.NoBrackets | Assets/Editor/EditorUtils.cs:310 | a type name without `[` is not an array type |
| ConfigJson.StringArrayIsArray | Assets/Editor/EditorUtils.cs:310-313 | `string[]` takes the array branch |
| ConfigJson.ScalarRoundTrip | Assets/Editor/EditorUtils.cs:285-332 | a scalar cell becomes a JSON string that unescapes to the cell text, or to `0` for an empty non-string cell |
| ConfigJson.ArrayWrapping | Assets/Editor/EditorUtils.cs:288-326 | a non-string array cell is wrapped in brackets, so an empty one becomes `[0]`; an empty `string[]` cell becomes `[]` |
| ConfigJson.StringArrayCoercion | Assets/Editor/EditorUtils.cs:313-320 | a `string[]` cell is parsed as a CSV-style array, each element quoted, and the elements joined in brackets |
| ConfigJson.StringArrayOfItems | Assets/Editor/EditorUtils.cs:313-320 | a cell of plain trimmed items joined by commas becomes the bracketed list of those items quoted |
| ConfigJson.PlainItemsQuoted | Assets/Editor/EditorUtils.cs:317-318 | items with no quote or backslash are quoted without escaping |
| ConfigJson.Width | Assets/Editor/EditorUtils.cs:270 | the row is read over the smaller of its cell count and the field count |
| ConfigJson.BuildObject | Assets/Editor/EditorUtils.cs:266-337 | the field loop throws exactly when a visited present cell throws; otherwise it builds `ObjectText`: missing cells are skipped and every written field but the last column's is followed by a comma |
| ConfigJson.NextField | Assets/Editor/EditorUtils.cs:271-336 | one iteration of the field loop extends the object text by the next field, or not at all for a missing cell |
| ConfigJson.PresentFields | Assets/Editor/EditorUtils.cs:334 | a row with every cell present renders one field per column, in order |
| ConfigJson.FieldsAllPresent | Assets/Editor/EditorUtils.cs:271-336 | with every cell present, the fields are joined by commas |
| ConfigJson.ObjectAllPresent | Assets/Editor/EditorUtils.cs:266-337 | with every cell present, the object is `{`, the fields joined by commas, and `}` |
| ConfigJson.TrailingComma | Assets/Editor/EditorUtils.cs:271-337 | when the last column's cell is missing and the one before is present, the object text ends in `,}` |
| ConfigJson.RowEntry | Assets/Editor/EditorUtils.cs:253-348 | a row gives an entry only when its id cell is present and non-empty, and then under that id |
| ConfigJson.CollectRows | Assets/Editor/EditorUtils.cs:245-349 | the loop throws exactly when a kept row before the first missing row throws; otherwise it computes `Collected`: rows from the fourth until the first missing row, skipping rows without an id or that fail to deserialize |
| ConfigJson.AbortsAt | Assets/Editor/EditorUtils.cs:247-271 | a throwing row with an id, reached with no missing row before it, aborts the row loop |
| ConfigJson.NeverAborts | Assets/Editor/EditorUtils.cs:247-271 | with no throwing row the row loop never aborts |
| ConfigJson.ThrowingCellAborts | Assets/Editor/EditorUtils.cs:247-282 | a Boolean or error formula in a visited column of a kept row before any gap makes the sheet's export throw |
| ConfigJson.NoThrowingCellExports | Assets/Editor/EditorUtils.cs:247-282 | a sheet without Boolean or error formula results is exported |
| ConfigJson.EntriesUpTo | Assets/Editor/EditorUtils.cs:247-250 | rows after a missing row are never read |
| ConfigJson.RowsAfterGapIgnored | Assets/Editor/EditorUtils.cs:247-250 | the collected rows are those before the first missing row |
| ConfigJson.EntriesSnoc | Assets/Editor/EditorUtils.cs:247-349 | appending a row appends at most its own entry |
| ConfigJson.AppendRowLastWins | Assets/Editor/EditorUtils.cs:339-348 | an appended row replaces any earlier row with its id; a row that is skipped or fails changes nothing |
| ConfigRegistry.BucketKey | Assets/Scripts/ExcelKit/ConfigManager.cs:57-58 | the bucket key is the prefix of the payload name before its first `_` |
| ConfigRegistry.FirstFailure | Assets/Scripts/ExcelKit/ConfigManager.cs:50-63 | the load stops at the first payload that fails to deserialize, and every payload before it succeeded |
| ConfigRegistry.Writes | Assets/Scripts/ExcelKit/ConfigManager.cs:52-60 | each loaded payload writes its whole bucket under its key |
| ConfigRegistry.WritesSnoc | Assets/Scripts/ExcelKit/ConfigManager.cs:52-60 | one more loaded payload appends one more bucket write |
| ConfigRegistry.LoadLastWins | Assets/Scripts/ExcelKit/ConfigManager.cs:57-60 | after a complete load a key holds the bucket of the last payload with that key |
| ConfigRegistry.LoadUntouched | Assets/Scripts/ExcelKit/ConfigManager.cs:41-64 | a bucket that no loaded payload names is kept as it was |
| ConfigRegistry.InstalledTwice | Assets/Scripts/ExcelKit/ConfigManager.cs:21-31 | loading the same payloads twice gives the same registry as loading them once |
| ConfigRegistry.LoadIdempotent | Assets/Scripts/ExcelKit/ConfigManager.cs:33-64 | loading a path a second time changes nothing |
| ConfigRegistry.Normalize | Assets/Scripts/ExcelKit/ConfigManager.cs:69-87 | a normalized id is trimmed, and empty exactly when the id is blank |
| ConfigRegistry.NormalizeOfTrim | Assets/Scripts/ExcelKit/ConfigManager.cs:69-87 | normalizing a trimmed id gives the same result as normalizing the id |
| ConfigRegistry.CacheAfter | Assets/Scripts/ExcelKit/ConfigManager.cs:76-84 | the set of logged ids only grows |
| ConfigRegistry.WarnsOnce | Assets/Scripts/ExcelKit/ConfigManager.cs:76-84 | after one warning for a config name and trimmed id, no id with the same trimmed text warns again |
| ConfigRegistry.HasIdTrimmed | Assets/Scripts/ExcelKit/ConfigManager.cs:223-233 | `Has` is true exactly when the id is not blank, the bucket exists and it holds the trimmed id |
| ConfigRegistry.LookupIgnoresSurroundingSpace | Assets/Scripts/ExcelKit/ConfigManager.cs:96-114 | looking up an id equals looking up its trimmed form, and a blank id finds nothing |
| ConfigRegistry.LookupFound | Assets/Scripts/ExcelKit/ConfigManager.cs:96-114 | a found record is an instance of the requested type and is stored under the trimmed id |
| ConfigRegistry.RemoveEffects | Assets/Scripts/ExcelKit/ConfigManager.cs:276-294 | other buckets are unchanged; afterwards the id is absent; an empty id drops the bucket; otherwise only the trimmed id is removed and every other id keeps its record |
| ConfigRegistry.CastAll | Assets/Scripts/ExcelKit/ConfigManager.cs:164-175 | when every value is of the type, the list holds each key's value exactly once, in some key order; otherwise the cast throws |
| ConfigRegistry.InstancesOf | Assets/Scripts/ExcelKit/ConfigManager.cs:196-214 | the result lists each of the bucket's records that is an instance of the type exactly once, in some key order, and no other |
| ConfigRegistry.LoadPayloads | Assets/Scripts/ExcelKit/ConfigManager.cs:43-63 | the payload loop installs the payloads up to the first failure, and reports whether all loaded |
| ConfigRegistry.Registry.InstallAll | Assets/Scripts/ExcelKit/ConfigManager.cs:43-63 | the registry gains the loaded buckets |
| ConfigRegistry.Registry.LoadAll | Assets/Scripts/ExcelKit/ConfigManager.cs:21-31 | the payloads are re-read unconditionally, and the path is recorded only when every payload loaded |
| ConfigRegistry.Registry.LoadAllFromResources | Assets/Scripts/ExcelKit/ConfigManager.cs:41-64 | an empty or already loaded path is a no-op; otherwise the payloads are installed |
| ConfigRegistry.Registry.EnsureLoaded | Assets/Scripts/ExcelKit/ConfigManager.cs:33-39 | only a path not yet loaded is loaded |
| ConfigRegistry.Registry.NormalizeId | Assets/Scripts/ExcelKit/ConfigManager.cs:69-87 | returns the normalized id and warns only the first time an id needs trimming |
| ConfigRegistry.Registry.Get | Assets/Scripts/ExcelKit/ConfigManager.cs:96-114 | returns the record of that type stored under the trimmed id, or nothing |
| ConfigRegistry.Registry.GetOfType | Assets/Scripts/ExcelKit/ConfigManager.cs:123-156 | a missing or non-config type returns nothing and changes nothing; otherwise it is `Get` on the type's bucket |
| ConfigRegistry.Registry.Has | Assets/Scripts/ExcelKit/ConfigManager.cs:223-233 | true exactly when the bucket holds the trimmed id |
| ConfigRegistry.Registry.HasOfType | Assets/Scripts/ExcelKit/ConfigManager.cs:242-268 | true exactly when the type is a config type and a record of that type is stored under the trimmed id |
| ConfigRegistry.Registry.GetAll | Assets/Scripts/ExcelKit/ConfigManager.cs:164-175 | a missing bucket gives an empty list; otherwise each key's value of the bucket exactly once, in some key order, or a failure when one is of another type |
| ConfigRegistry.Registry.GetAllOfType | Assets/Scripts/ExcelKit/ConfigManager.cs:183-215 | a missing or non-config type or bucket gives an empty list; otherwise each of the bucket's instances of the type exactly once, in some key order |
| ConfigRegistry.Registry.Remove | Assets/Scripts/ExcelKit/ConfigManager.cs:276-294 | the registry becomes `Removed`, and loaded paths are unchanged |
| ConfigRegistry.Registry.RemoveOfType | Assets/Scripts/ExcelKit/ConfigManager.cs:303-333 | a missing or non-config type changes nothing; otherwise it removes as `Remove` does, the warning cache included |
| Locale.FindSupported | Assets/Scripts/LocaleKit/LocaleManager.cs:117-124 | a language key is supported exactly when it equals `cn` or `en` ignoring case, and maps to Chinese or English |
| Locale.LanguagePrefixFolds | Assets/Scripts/LocaleKit/LocaleManager.cs:81 | the language-asset prefix matches in any ASCII casing and with a dotless i or a long s, and a name missing a letter does not match |
| Locale.FindIndex | Assets/Scripts/LocaleKit/LocaleManager.cs:48-55 | the saved index of a language is its position in the supported list, or -1 when it is not supported |
| Locale.SelectLanguage | Assets/Scripts/LocaleKit/LocaleManager.cs:146-154 | a saved index in range selects that language; any other selects the first |
| Locale.SavedIndexRoundTrip | Assets/Scripts/LocaleKit/LocaleManager.cs:146-154 | a saved supported language is selected again; an unsupported one selects Chinese; an in-range index survives the round trip |
| Locale.EntriesDistinct | Assets/Scripts/LocaleKit/LocaleManager.cs:130-136 | the dictionary's entries have distinct keys |
| Locale.LastWrite | Assets/Scripts/LocaleKit/LocaleManager.cs:130-136 | the last write of a key determines its value |
| Locale.EntriesValues | Assets/Scripts/LocaleKit/LocaleManager.cs:130-136 | the ordered entries carry the values of the last-wins fold |
| Locale.EntriesCover | Assets/Scripts/LocaleKit/LocaleManager.cs:130-136 | every key of the last-wins fold has an entry |
| Locale.DictValues | Assets/Scripts/LocaleKit/LocaleManager.cs:130-136 | the dictionary's values, one per entry, in entry order |
| Locale.AddEntryEffect | Assets/Scripts/LocaleKit/LocaleManager.cs:109-136 | an entry with an empty field or an unsupported key is skipped; otherwise its text is stored under its language and id and nothing else changes |
| Locale.AddAssetsWellFormed | Assets/Scripts/LocaleKit/LocaleManager.cs:79-136 | folding assets keeps every stored text and key non-empty |
| Locale.AddEntriesWellFormed | Assets/Scripts/LocaleKit/LocaleManager.cs:109-136 | folding entries keeps every stored text and key non-empty |
| Locale.TextOrKey | Assets/Scripts/LocaleKit/LocaleManager.cs:182-192 | the mapped text, or the key itself when the language or key is missing |
| Locale.TextOrKeyNonEmpty | Assets/Scripts/LocaleKit/LocaleManager.cs:182-192 | a non-empty key never gives empty text, and an unsupported language gives the key |
| Locale.FoldValues | Assets/Scripts/LocaleKit/LocaleManager.cs:105-137 | the entry loop of one asset computes `AddEntries` |
| Locale.FoldAsset | Assets/Scripts/LocaleKit/LocaleManager.cs:79-138 | one asset is read only when its name starts with `LanguagesConfig_`, ignoring case, and is skipped when it fails to parse |
| Locale.AddAssetsSnoc | Assets/Scripts/LocaleKit/LocaleManager.cs:72-138 | one more asset folds one more asset |
| Locale.FoldAssets | Assets/Scripts/LocaleKit/LocaleManager.cs:72-138 | the asset loop computes `LocaleDataOf` |
| Locale.LocaleManager.InitLanguage | Assets/Scripts/LocaleKit/LocaleManager.cs:61-158 | a second call is a no-op; without usable entries the flag stays false for a retry; on success the data is the fold, the language comes from the saved index and the language bucket is evicted |
| Locale.LocaleManager.InstallLocaleData | Assets/Scripts/LocaleKit/LocaleManager.cs:72-157 | the fold and the state a completed load leaves |
| Locale.LocaleManager.SetCurrentLanguage | Assets/Scripts/LocaleKit/LocaleManager.cs:48-55 | after initialisation the language is set and its index, -1 when unsupported, is persisted |
| Locale.LocaleManager.GetCurrentLanguage | Assets/Scripts/LocaleKit/LocaleManager.cs:43-47 | the current language, after initialising on first use |
| Locale.LocaleManager.GetText | Assets/Scripts/LocaleKit/LocaleManager.cs:182-200 | after initialising on first use, the text of the key or the key itself |
| Prefs.ConvertInt | Assets/Scripts/Common/RuntimePrefs.cs:263-285 | a stored int converts to itself, a stored string converts as parsed, and an absent key does not convert |
| Prefs.RuntimePrefs.SetMode | Assets/Scripts/Common/RuntimePrefs.cs:33-49 | sets the mode, and switching to memory-only re-arms the fallback warning |
| Prefs.RuntimePrefs.Configure | Assets/Scripts/Common/RuntimePrefs.cs:51-55 | sets the mode and the fallback permission |
| Prefs.RuntimePrefs.HandlePlayerPrefsFailure | Assets/Scripts/Common/RuntimePrefs.cs:246-261 | with fallback allowed the mode becomes memory-only and the logged flag ends false; without it nothing changes |
| Prefs.RuntimePrefs.TryWrite | Assets/Scripts/Common/RuntimePrefs.cs:206-223 | the backing store is written only in PlayerPrefs mode, and a failure is handled as above |
| Prefs.RuntimePrefs.TryRead | Assets/Scripts/Common/RuntimePrefs.cs:225-244 | the backing store is read only in PlayerPrefs mode, and a failure is handled as above |
| Prefs.RuntimePrefs.SetInt | Assets/Scripts/Common/RuntimePrefs.cs:60-64 | the memory store is written first in every mode, then the backing store when available |
| Prefs.RuntimePrefs.GetInt | Assets/Scripts/Common/RuntimePrefs.cs:69-83 | a convertible cached value wins; otherwise the backing value or the default is returned and cached; in memory-only mode nothing is inserted |
| Prefs.RuntimePrefs.SetString | Assets/Scripts/Common/RuntimePrefs.cs:116-121 | the memory store is written first, then the backing store when available |
| Prefs.RuntimePrefs.GetString | Assets/Scripts/Common/RuntimePrefs.cs:126-140 | a cached value is returned as text; otherwise the backing value is returned and cached, or in memory-only mode the default, with nothing inserted |
| Prefs.RuntimePrefs.HasKey | Assets/Scripts/Common/RuntimePrefs.cs:145-162 | a cached key gives true; a miss in memory-only mode gives false |
| Prefs.RuntimePrefs.DeleteKey | Assets/Scripts/Common/RuntimePrefs.cs:167-176 | an empty key is a no-op; otherwise only that key is removed |
| Prefs.RuntimePrefs.DeleteAll | Assets/Scripts/Common/RuntimePrefs.cs:181-185 | the memory store is emptied, and the backing store too when available |
| Prefs.RuntimePrefs.Save | Assets/Scripts/Common/RuntimePrefs.cs:190-193 | no stored value changes |
| GameReset.PrologueKey | Assets/Scripts/Game/GameResetService.cs:26-29 | each versioned key starts with the prologue prefix and `.v` |
| GameReset.PrologueKeyInjective | Assets/Scripts/Game/GameResetService.cs:26-29 | different versions give different keys |
| GameReset.LanguageKeyIsNoPrologueKey | Assets/Scripts/Game/GameResetService.cs:23-34 | the language key is no prologue key |
| GameReset.ResetEffect | Assets/Scripts/Game/GameResetService.cs:23-37 | prologue versions 1 to 10 are deleted; the language choice is deleted exactly when it is not kept; every other key keeps its value |
| GameReset.DeleteNextVersion | Assets/Scripts/Game/GameResetService.cs:26-29 | deleting one more version deletes one more key |
| GameReset.ResetSession | Assets/Scripts/Game/GameResetService.cs:13-17 | the inventory and the puzzle progress are emptied |
| GameReset.ResetProgressForNewGame | Assets/Scripts/Game/GameResetService.cs:23-37 | the prefs store loses exactly the reset keys |
| Inventory.DisplayNameOrId | Assets/Scripts/Inventory/InventoryItem.cs:24-27 | the display name when it is non-empty, else the id |
| Inventory.DescriptionOrDefault | Assets/Scripts/Inventory/InventoryItem.cs:29-32 | the description when it is non-empty, else the default text |
| Inventory.DisplayNameNonEmpty | Assets/Scripts/Inventory/InventoryItem.cs:24-27 | the shown name is empty only when both name and id are |
| Inventory.IndexOf | Assets/Scripts/Inventory/InventoryState.cs:78-83 | the first position of an item, or -1 exactly when absent |
| Inventory.ReplaceById | Assets/Scripts/Inventory/InventoryState.cs:72-84 | every item with the id is replaced and every other item is kept |
| Inventory.AppendKeepsConsistent | Assets/Scripts/Inventory/InventoryState.cs:86-89 | appending a new id keeps the list and dictionary in step |
| Inventory.ReplaceAtIndexOf | Assets/Scripts/Inventory/InventoryState.cs:72-84 | replacing at the index of the stored item is replacing by id |
| Inventory.ReplaceKeepsConsistent | Assets/Scripts/Inventory/InventoryState.cs:72-84 | replacing a known id keeps the list and dictionary in step |
| Inventory.InventoryState.Clear | Assets/Scripts/Inventory/InventoryState.cs:33-37 | both collections are emptied |
| Inventory.InventoryState.Contains | Assets/Scripts/Inventory/InventoryState.cs:39-47 | true exactly when the id is non-empty and some item has it |
| Inventory.InventoryState.TryGet | Assets/Scripts/Inventory/InventoryState.cs:49-58 | finds the item with a non-empty id present in the list |
| Inventory.InventoryState.TryAdd | Assets/Scripts/Inventory/InventoryState.cs:65-90 | a missing item or blank id is refused; a new id is appended and indexed; a known id is replaced in place and returns false |
| Inventory.ReplaceKeepsOrder | Assets/Scripts/Inventory/InventoryState.cs:72-84 | a replacement keeps the order of ids and stores the new item |
| Inventory.CatalogItem | Assets/Scripts/Inventory/InventoryItemCatalog.cs:27-46 | an unconfigured id shows itself as name with no description or icon; a configured one takes name, description and icon from the config |
| Inventory.UnconfiguredItemShowsId | Assets/Scripts/Inventory/InventoryItemCatalog.cs:27-38 | an unconfigured item displays its id and the default description |
| Inventory.ItemCatalog.EnsureLoaded | Assets/Scripts/Inventory/InventoryItemCatalog.cs:49-58 | the registry is loaded at most once, and the result tells whether the load went through: already loaded, the path already loaded, or every payload deserialised |
| Inventory.ItemCatalog.LoadSpriteOrNull | Assets/Scripts/Inventory/InventoryItemCatalog.cs:60-75 | an empty path gives nothing; the loader runs at most once per path and missing sprites are cached too |
| Inventory.ItemCatalog.TryCreateItem | Assets/Scripts/Inventory/InventoryItemCatalog.cs:17-47 | a blank id is refused with nothing changed; a throwing first load gives no item; any other id gives the catalog item for its config, with the id as passed |
| Inventory.InventoryService.Reset | Assets/Scripts/Inventory/InventoryService.cs:11-14 | the shared state is emptied |
| Inventory.InventoryService.TryCollect | Assets/Scripts/Inventory/InventoryService.cs:20-28 | false with the inventory unchanged on a blank id or a throwing first load; otherwise the catalog item is appended for a new id (true) or replaces the stored one in place (false), the count growing only in the first case |
| Puzzles.NormalizeId | Assets/Scripts/Puzzles/PuzzleProgress.cs:46-56 | a blank id has no normal form; any other is trimmed |
| Puzzles.SolvedIgnoresSurroundingSpace | Assets/Scripts/Puzzles/PuzzleProgress.cs:13-21 | a blank id is never solved, and an id reads the same as its trimmed form |
| Puzzles.SetSolvedEffect | Assets/Scripts/Puzzles/PuzzleProgress.cs:28-36 | setting an id sets every id with the same trimmed text and leaves every other id unchanged |
| Puzzles.SetSolvedBlankIgnored | Assets/Scripts/Puzzles/PuzzleProgress.cs:28-36 | setting a blank id is a no-op |
| Puzzles.SetSolvedTrimsId | Assets/Scripts/Puzzles/PuzzleProgress.cs:28-56 | setting `"  p2  "` makes `p2` solved |
| Puzzles.PuzzleProgress.IsSolved | Assets/Scripts/Puzzles/PuzzleProgress.cs:13-21 | true only for a non-blank id whose trimmed form is marked solved |
| Puzzles.PuzzleProgress.SetSolved | Assets/Scripts/Puzzles/PuzzleProgress.cs:28-36 | stores the flag under the trimmed id |
| Puzzles.PuzzleProgress.MarkSolved | Assets/Scripts/Puzzles/PuzzleProgress.cs:23-26 | marks the trimmed id solved |
| Puzzles.PuzzleProgress.ResetAll | Assets/Scripts/Puzzles/PuzzleProgress.cs:41-44 | no id is solved any more |
| Puzzles.CanPickup | Assets/Scripts/Interaction/PuzzleSolvedCondition.cs:14-28 | allowed exactly when the puzzle is solved, with no reason; otherwise refused with the trimmed override or the default reason naming the puzzle |
| Prologue.Try | Assets/Scripts/Prologue/GamePrologueStateModel.cs:22-64 | a step succeeds exactly from its predecessor state and advances one state; a refused step keeps the state |
| Prologue.RunOrdinal | Assets/Scripts/Prologue/GamePrologueStateModel.cs:22-64 | the state never goes back, and advances at most one per call |
| Prologue.CompletedAbsorbing | Assets/Scripts/Prologue/GamePrologueStateModel.cs:20-64 | once completed, every call keeps the state completed |
| Prologue.CompletedNeedsFourCalls | Assets/Scripts/Prologue/GamePrologueStateModel.cs:22-64 | completing from the start takes at least four calls |
| Prologue.FullFlowCompletes | Assets/Scripts/Prologue/GamePrologueStateModel.cs:22-64 | the four steps in order all succeed and end completed |
| Prologue.GamePrologueStateModel.constructor | Assets/Scripts/Prologue/GamePrologueStateModel.cs:18 | starts not started |
| Prologue.GamePrologueStateModel.TryBegin | Assets/Scripts/Prologue/GamePrologueStateModel.cs:22-31 | not started moves to showing info; anything else is refused |
| Prologue.GamePrologueStateModel.TryConfirmInfo | Assets/Scripts/Prologue/GamePrologueStateModel.cs:33-42 | showing info moves to playing the gift; anything else is refused |
| Prologue.GamePrologueStateModel.TryFinishGift | Assets/Scripts/Prologue/GamePrologueStateModel.cs:44-53 | playing the gift moves to waiting for confirmation; anything else is refused |
| Prologue.GamePrologueStateModel.TryConfirmAcquireMask | Assets/Scripts/Prologue/GamePrologueStateModel.cs:55-64 | waiting for confirmation moves to completed; anything else is refused |
| Prologue.PrologueFlow | Assets/Scripts/Prologue/GamePrologueStateModel.cs:18-64 | confirming info before beginning is refused, and the four calls in order succeed and complete |
| Mask.Initial | Assets/Scripts/Level/MaskStateModel.cs:9-13 | the mask is worn only when it is held and asked to be on |
| Mask.AcquireMask | Assets/Scripts/Level/MaskStateModel.cs:15-26 | refused when already held; otherwise held and off; keeps "worn implies held" |
| Mask.SetMaskOn | Assets/Scripts/Level/MaskStateModel.cs:28-42 | refused without the mask or for the current value; otherwise set; keeps the invariant |
| Mask.ToggleMask | Assets/Scripts/Level/MaskStateModel.cs:44-53 | refused without the mask; otherwise flips; keeps the invariant |
| Mask.PerformAllKeepsInvariant | Assets/Scripts/Level/MaskStateModel.cs:6-53 | any series of operations keeps "worn implies held", and a held mask is never lost |
| Mask.ToggleTwice | Assets/Scripts/Level/MaskStateModel.cs:44-53 | toggling twice restores the state |
| Mask.MaskStateModel.constructor | Assets/Scripts/Level/MaskStateModel.cs:9-13 | the initial state as above |
| Mask.MaskStateModel.TryAcquireMask | Assets/Scripts/Level/MaskStateModel.cs:15-26 | the result and new state are those of `AcquireMask` |
| Mask.MaskStateModel.TrySetMaskOn | Assets/Scripts/Level/MaskStateModel.cs:28-42 | the result and new state are those of `SetMaskOn` |
| Mask.MaskStateModel.TryToggleMask | Assets/Scripts/Level/MaskStateModel.cs:44-53 | the result and new state are those of `ToggleMask` |
| Mask.ApplyWorlds | Assets/Scripts/Level/DualWorldLevel.cs:47-58 | a missing world stays missing; the no-mask world is active exactly without the mask and the mask world exactly with it |
| Mask.ExactlyOneWorldActive | Assets/Scripts/Level/DualWorldLevel.cs:49-57 | with both worlds present, exactly one is active |
| Mask.DualWorldLevel.constructor | Assets/Scripts/Level/DualWorldLevel.cs:17-45 | the wired worlds, shown for the mask off |
| Mask.DualWorldLevel.Apply | Assets/Scripts/Level/DualWorldLevel.cs:47-58 | the worlds' active flags follow the mask state |
| Mask.DualWorldLevel.SetMaskOn | Assets/Scripts/Level/DualWorldLevel.cs:23-32 | the current value changes nothing; another value is applied |
| Mask.Build | Assets/Scripts/Level/MaskToggleSequencePlanner.cs:38-58 | three steps with the world switch once, in the middle; wear steps when the mask is off, removal steps when it is on |
| Mask.PlansDisjoint | Assets/Scripts/Level/MaskToggleSequencePlanner.cs:38-58 | the two plans share only the world switch |
| Crack.StageIndex | Assets/Scripts/Presentation/MaskCrackProgression.cs:7-25 | 0 without stages or progress, the last stage at or past the count, else the completed count; always a valid stage |
| Crack.StageIndexMonotone | Assets/Scripts/Presentation/MaskCrackProgression.cs:7-25 | more completed levels never give an earlier stage |
| Crack.StageIndexIsClamp | Assets/Scripts/Presentation/MaskCrackProgression.cs:7-25 | with stages, the stage is the completed count clamped to the stage range |
| Level.TryGetNextIndex | Assets/Scripts/Level/LevelIndexSequence.cs:7-33 | succeeds exactly before the last level, giving the next index and no error; otherwise -1 and the error for no levels, an index out of range or the last level |
| Level.StepsReachEveryLevel | Assets/Scripts/Level/LevelIndexSequence.cs:7-33 | stepping from the first level reaches every level |
| Level.Clamp | Assets/Scripts/Level/LevelRootSwitcher.cs:21 | a value inside the bounds is kept and one outside is moved to the nearer bound |
| Level.StartIndex | Assets/Scripts/Level/LevelRootSwitcher.cs:19-23 | the start index is a valid level, and kept when it already is one |
| Level.Activated | Assets/Scripts/Level/LevelRootSwitcher.cs:45-62 | missing roots stay missing; an assigned root is active exactly at the given index |
| Level.ActivatedShowsOneLevel | Assets/Scripts/Level/LevelRootSwitcher.cs:45-62 | at most one level is active |
| Level.LevelRootSwitcher.LevelCount | Assets/Scripts/Level/LevelRootSwitcher.cs:17 | 0 without a root array, else its length |
| Level.LevelRootSwitcher.constructor | Assets/Scripts/Level/LevelRootSwitcher.cs:19-23 | the start index is clamped and that level shown |
| Level.LevelRootSwitcher.Awake | Assets/Scripts/Level/LevelRootSwitcher.cs:19-23 | the start index is clamped and that level shown |
| Level.LevelRootSwitcher.TryGoToNextLevel | Assets/Scripts/Level/LevelRootSwitcher.cs:25-43 | without roots it is refused; a refused step keeps the index and roots and prefixes the error; success moves one level on and shows it |
| Level.LevelRootSwitcher.ApplyActiveState | Assets/Scripts/Level/LevelRootSwitcher.cs:45-62 | the loop activates exactly the root at the index |
| PatternLock.PointDown | Assets/Scripts/Decryption/GridPatternLock.cs:367-382 | outside a drag the pattern restarts with the point; inside one the point is added unless already linked; points stay distinct |
| PatternLock.PointEnter | Assets/Scripts/Decryption/GridPatternLock.cs:384-393 | only a drag adds a point, and never a duplicate |
| PatternLock.Release | Assets/Scripts/Decryption/GridPatternLock.cs:420-423 | releasing the mouse ends the drag and keeps the points |
| PatternLock.EventsKeepPatternDistinct | Assets/Scripts/Decryption/GridPatternLock.cs:367-393 | any series of input events keeps every point linked at most once |
| PatternLock.DistinctPatternBound | Assets/Scripts/Decryption/GridPatternLock.cs:374-377 | a pattern of distinct grid points is no longer than the grid |
| PatternLock.IsMatch | Assets/Scripts/Decryption/PatternLockValidator.cs:8-29 | true exactly when both lists exist and are equal element by element; hence reflexive and symmetric on existing lists |
| PatternLock.Effective | Assets/Scripts/Decryption/GridPatternLock.cs:249-265 | the override when set, else the default |
| PatternLock.DefaultAnswers | Assets/Scripts/Decryption/GridPatternLock.cs:43-44 | without overrides only 3,0,7,2,5 and 5,2,7,0,3 are accepted |
| PatternLock.GridPatternLock.OverrideAcceptedPatterns | Assets/Scripts/Decryption/GridPatternLock.cs:85-89 | sets both overrides; none restores a default |
| PatternLock.GridPatternLock.OnPointDown | Assets/Scripts/Decryption/GridPatternLock.cs:367-382 | the input becomes `PointDown` of the old input |
| PatternLock.GridPatternLock.OnPointEnter | Assets/Scripts/Decryption/GridPatternLock.cs:384-393 | the input becomes `PointEnter` of the old input |
| PatternLock.GridPatternLock.Update | Assets/Scripts/Decryption/GridPatternLock.cs:395-423 | the input becomes `Release` of the old input: the drag ends when the mouse button is up, and the points stay |
| PatternLock.GridPatternLock.ClearPattern | Assets/Scripts/Decryption/GridPatternLock.cs:540-558 | the pattern is emptied and the drag ended |
| PatternLock.GridPatternLock.Hide | Assets/Scripts/Decryption/GridPatternLock.cs:99-104 | the pattern is cleared and the lock closed |
| PatternLock.GridPatternLock.CheckPassword | Assets/Scripts/Decryption/GridPatternLock.cs:249-265 | true exactly when the pattern equals the first or the second accepted pattern |
| PatternLock.GridPatternLock.CopyPattern | Assets/Scripts/Decryption/GridPatternLock.cs:267-276 | a new array holding the pattern element by element |
| PatternLock.GridPatternLock.OnConfirm | Assets/Scripts/Decryption/GridPatternLock.cs:221-235 | an accepted pattern is copied before the lock is cleared and closed; a rejected one is cleared at once without a hint text and otherwise kept |
| PatternLock.PressReleaseRestart | Assets/Scripts/Decryption/GridPatternLock.cs:367-423 | pressing 1, entering 2 and releasing keeps the pattern 1, 2; the next press on 3 starts a new drag holding only 3 |
| UiPatternLock.SequenceEquals | Assets/Scripts/UI/GridPatternLock.cs:142-148 | true exactly when the counts are equal and every position matches |
| UiPatternLock.AcceptedIffPassword | Assets/Scripts/UI/GridPatternLock.cs:134-140 | a pattern is accepted exactly when it is one of the two passwords |
| UiPatternLock.GridPatternLock.OnPointDown | Assets/Scripts/UI/GridPatternLock.cs:214-221 | the input becomes `PointDown` of the old input |
| UiPatternLock.GridPatternLock.OnPointEnter | Assets/Scripts/UI/GridPatternLock.cs:223-228 | the input becomes `PointEnter` of the old input |
| UiPatternLock.GridPatternLock.Update | Assets/Scripts/UI/GridPatternLock.cs:230-251 | the input becomes `Release` of the old input: the drag ends when the mouse button is up, and the points stay |
| UiPatternLock.GridPatternLock.ClearPattern | Assets/Scripts/UI/GridPatternLock.cs:332-340 | the pattern is emptied and the drag ended |
| UiPatternLock.GridPatternLock.OnReset | Assets/Scripts/UI/GridPatternLock.cs:124-127 | the pattern is emptied and the drag ended |
| UiPatternLock.GridPatternLock.CheckPassword | Assets/Scripts/UI/GridPatternLock.cs:134-140 | false unless the pattern has five points; true exactly for the two passwords |
| UiPatternLock.GridPatternLock.OnConfirm | Assets/Scripts/UI/GridPatternLock.cs:111-122 | an accepted pattern closes the window and keeps the pattern; a rejected one is cleared at once without a hint text and otherwise kept |
| Safe.DigitChar | Assets/Scripts/UI/SafeUI.cs:81-87 | the character a digit button adds is that digit |
| Safe.Type | Assets/Scripts/UI/SafeUI.cs:81-87 | a digit is added only while fewer than four are held; the buffer never exceeds four |
| Safe.TypeAllFull | Assets/Scripts/UI/SafeUI.cs:81-87 | a full buffer ignores every further digit |
| Safe.TypeAllKeepsFirstDigits | Assets/Scripts/UI/SafeUI.cs:81-87 | a series of digits keeps those typed while there is room and drops the rest |
| Safe.FirstPasswordDigits | Assets/Scripts/UI/SafeUI.cs:11 | the code is the digits 1, 0, 2, 7 |
| Safe.Click | Assets/Scripts/UI/SafeUI.cs:100-109 | an index outside the rollers or the buttons changes nothing; otherwise that roller moves to the next symbol modulo 3 and the others stay |
| Safe.ClickCycles | Assets/Scripts/UI/SafeUI.cs:100-109 | rollers stay on a symbol, and three clicks restore one |
| Safe.SecondPasswordReachable | Assets/Scripts/UI/SafeUI.cs:100-116 | from reset rollers, clicks reach the second password |
| Safe.SafeUI.OnNumberClicked | Assets/Scripts/UI/SafeUI.cs:81-87 | the buffer becomes `Type` of the old one, and the fourth digit triggers the check, which closes the safe on a mismatch |
| Safe.SafeUI.CheckFirstPassword | Assets/Scripts/UI/SafeUI.cs:89-98 | correct exactly for 1027; a mismatch closes the safe |
| Safe.SafeUI.OnRollerClicked | Assets/Scripts/UI/SafeUI.cs:100-109 | the rollers become `Click` of the old ones, and the check reports the second password |
| Safe.SafeUI.CheckSecondPassword | Assets/Scripts/UI/SafeUI.cs:111-116 | correct exactly for the rollers 1, 2, 1 |
| Safe.SafeUI.Close | Assets/Scripts/UI/SafeUI.cs:118-121 | the safe is closed |
| Safe.SafeUI.OnEnable | Assets/Scripts/UI/SafeUI.cs:123-129 | the buffer is emptied and every roller reset to the first symbol |
| AudioClips.AudioClipCache.constructor | Assets/Scripts/Audio/Core/AudioClipCache.cs:14-17 | an empty cache over the loader |
| AudioClips.AudioClipCache.TryGet | Assets/Scripts/Audio/Core/AudioClipCache.cs:19-36 | a blank path gives nothing without calling the loader; otherwise the trimmed path is loaded at most once and cached, missing clips included; found exactly when a clip exists |
| AudioClips.Create | Assets/Scripts/Audio/Core/AudioClipCache.cs:14-17 | a null loader is refused; any other gives an empty cache |
| AudioClips.CachesMissingClip | Assets/Scripts/Audio/Core/AudioClipCache.cs:19-36 | two lookups of a missing clip both fail, and the loader runs once, or never for a blank path |
| AudioClips.SurroundingSpaceSharesEntry | Assets/Scripts/Audio/Core/AudioClipCache.cs:22-33 | looking up two paths that differ only by surrounding white space gives the same clip, stores one entry and calls the loader at most once, only when that entry was not cached |
| AudioTable.Table | Assets/Scripts/ScriptableSource/AudioScriptable.cs:36-52 | the table's keys are non-empty |
| AudioTable.TableKeys | Assets/Scripts/ScriptableSource/AudioScriptable.cs:36-52 | a key is in the table exactly when some entry with that key has a clip |
| AudioTable.TableLastWins | Assets/Scripts/ScriptableSource/AudioScriptable.cs:36-52 | a key holds the clip of its last kept entry |
| AudioTable.SoundFor | Assets/Scripts/ScriptableSource/AudioScriptable.cs:61-73 | the id's clip, else the `else` clip, else nothing |
| AudioTable.UnlistedIdFallsBack | Assets/Scripts/ScriptableSource/AudioScriptable.cs:61-73 | an id that no kept entry names sounds like the `else` entry |
| AudioTable.BuildTable | Assets/Scripts/ScriptableSource/AudioScriptable.cs:36-52 | the entry loop computes `Table`, and a null list gives an empty table |
| AudioTable.AudioScriptable.BuildDictionaries | Assets/Scripts/ScriptableSource/AudioScriptable.cs:30-53 | both tables are rebuilt fresh from their lists |
| AudioTable.AudioScriptable.GetMainBgm | Assets/Scripts/ScriptableSource/AudioScriptable.cs:55-59 | the tables are built on first use; an unknown name gives nothing |
| AudioTable.AudioScriptable.GetSpecialItemSound | Assets/Scripts/ScriptableSource/AudioScriptable.cs:61-73 | the tables are built on first use, and the sound is `SoundFor` the id |

**Where the model follows the code rather than the design notes.**
- `ParseCsvStyleArray` (EditorUtils.cs:446-456) turns `""` into one literal quote even outside quotes, not only inside a quoted segment. So `"",a` parses to a quote and `a`.
- The registry stores each bucket under the payload's raw keys, untrimmed, while every lookup trims. A record whose id has surrounding white space is therefore unreachable (ConfigManager.cs:57-60, 96-114).
- When the last column of a row has no cell, the object text ends in `,}` (EditorUtils.cs:274, 335).
- `GetInt` in PlayerPrefs mode caches the value it read, the default included, in the memory store (RuntimePrefs.cs:76-82).
- A deserialisation exception in `LoadAllFromResources` stops the loop and leaves the earlier payloads installed. The path is then not recorded as loaded (ConfigManager.cs:43-63).
- The item catalog sets its loaded flag before it loads, so a throwing load is not retried: the call whose load throws yields no item, and later calls use whatever was installed (InventoryItemCatalog.cs:49-58).
- The inventory keeps ids exactly as passed, untrimmed (InventoryItemCatalog.cs:27-47).
- Both SafeUI password checks only report their result, and a correct first code opens nothing (SafeUI.cs:89-116).
- `GetSpecialItemSound` logs "use else" with `Debug.Log` on both of its return paths, the direct hit on the id included (AudioScriptable.cs:68, 71).

## Left out

- Workbook and file I/O are not modelled: NPOI reading, directory and file writes, deleting old files, `AssetDatabase.Refresh` and the `delayCall` hand-off. Sheets are sequences of rows of optional cells, and folders are maps.
- `FindConfigType` reflection is a `typeFound` flag. `JsonConvert` is an abstract deserialiser, where `None` stands for a throw or a result that is not a record.
- Culture formatting of numeric formula results is not modelled; the formatted text is taken as given.
- Text.EqualsIgnoreCase: `OrdinalIgnoreCase` is modelled for comparisons with ASCII text, the only kind the source makes; two non-ASCII letters that differ only in case compare unequal in the model.
- `char.IsLetter` and `char.IsLetterOrDigit` are function parameters, not Unicode tables.
- `Resources.Load`, `Resources.LoadAll` and `TextAsset` are given asset lists and loader functions.
- `Debug.Log*` output is dropped, except for the warnings `NormalizeId` and `HandlePlayerPrefsFailure` return.
- C# events are not modelled: `ItemAdded`/`ItemUpdated`, `OnLanguageChanged`, the lock's `Solved` (its payload is the method's result) and `Cancelled`.
- Floats in `RuntimePrefs` are not modelled: `SetFloat`, `GetFloat`, `TryConvertFloat` and the float-to-int branch of `TryConvertInt`.
- `int.TryParse` is a parameter.
- The order of `GetAll`'s list is Dictionary enumeration order and is not specified; the model states which records are listed, each exactly once.
- A payload record that is literally `null` inside a bucket is modelled as `None` only where the registry stores it.
- Prefs.RuntimePrefs: the `PlayerPrefs` backing store is a map with a fixed failure flag; a store that fails on some calls only is not modelled.
- Inventory.InventoryState.TryAdd: items are values, so the source's reference identity of `InventoryItem` objects is not captured.
- Locale.LocaleManager.InitLanguage: the saved index read from prefs is a ghost result, tied to the store by `GotInt`.
- Mask.DualWorldLevel.constructor: `TryAutoWire`'s `transform.Find` lookup is replaced by the worlds passed in.
- Level.LevelRootSwitcher: roots are `Unassigned` or `Assigned(active)` values, not GameObjects, and their identity is not modelled.
- PatternLock.GridPatternLock.OnConfirm: with a hint text, the rejected path's error colour and the reset three seconds later are not modelled; the pattern is kept.
- PatternLock.Release: of `Update`, only the release check is modelled, not the line drawing.
- ConfigRegistry.LoadPayloads: a payload whose text deserialises to null (an empty text or `null`) does not throw in the source; it is stored as a null bucket, the loop goes on and the path is recorded, and a later `Get` or `Has` on that bucket throws (ConfigManager.cs:56-59). The model treats such a payload as a deserialisation failure, which stops the loop and leaves the path unrecorded.
- ConfigClass.ClassLineCount: lines are the texts passed to `AppendLine`; a header comment holding a line break, which `Trim` keeps, writes further physical lines, whose continuation is not commented, and these are not counted.
- UiPatternLock.GridPatternLock.OnConfirm: with a hint text, the rejected path's error feedback and the reset three seconds later are not modelled; the pattern is kept.
- Line rendering, colours, hint text (`RestoreHintText`), roller labels and button lookup are presentation and are not modelled.
- PatternLock.DefaultAnswers: Inspector edits of the serialized default patterns are not modelled; the defaults are constants.
- PatternLock.DistinctPatternBound: the nine-point grid bound is stated for any grid set, because point indices are not checked against the grid in the source.
- Safe.SafeUI.OnNumberClicked: modelled only for digits 0 to 9, the only values the buttons pass (SafeUI.cs:44-52).
- AudioTable.AudioScriptable.GetMainBgm: a null name, for which `TryGetValue` throws, is not modelled; names are strings.
- AudioTable.AudioScriptable.GetSpecialItemSound: a null id, for which `TryGetValue` throws, is not modelled.
- AudioTable.Table: a null `AudioEntry` element in a list is not modelled.
- Clips and sprites are opaque values.
- Unity's destroyed-object null semantics are not modelled.
- `LocaleManager.ChangeLanguage` and the one-argument `GetText` only forward to the `CurrentLanguage` setter and the two-argument `GetText`, which are modelled; the forwarders themselves are not.
- The prefab-based level switcher, the mask animation driver and the `MaskWorldController` glue are scene and animation plumbing and are not part of this model.

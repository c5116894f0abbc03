# Image downloader: filter, sort, settings and file names in Dafny

This project models the logic core of a browser extension that finds the
images on a page, lets the user filter and sort them in a popup, and
downloads them into a folder chosen on its options page. It models three
parts of the code:

- **The popup's filter and sort pipeline** (`src/utils/imageFilter.ts`).
  - An image's extension is read from its file name, up to the first `?`, or
    else from the last `/` segment of its URL, and is lower-cased.
  - The filter keeps the images that are large enough and have an allowed
    extension. An empty set allows everything, and `other` admits images
    without an extension.
  - The sort returns a sorted copy. It orders by area, width, height or file
    name, ascending or descending, and breaks ties with a natural-order file
    name comparison in which digit runs compare as numbers.
- **The options page** (`src/options.ts`).
  - Validation refuses a download path containing `..` or `\`, and otherwise
    makes it end in `/`, editing the settings object in place.
  - Saving turns a blank path box into `images/`.
  - Resetting and reading the stored settings use the same defaults.
- **The background worker** (`src/background.ts`).
  - It builds a download name `stem_timestamp.ext` from a URL's last path
    segment.
  - It joins the download folder and the file name.
  - It routes incoming messages by their `type`.

Modules, one per file:

- `Wrappers`: `Option`, with `GetOr` standing for `??` and for storage
  defaults.
- `Strings`: the JavaScript string operations the core uses (`split(c)[0]`,
  `split(c).pop()`, `lastIndexOf`, `includes`, `endsWith`, `trim`,
  `toLowerCase`, `replace(/[:.]/g, '-')`).
- `ImageTypes`: the `ImageInfo` record.
- `NaturalOrder`: the fallback natural comparator. `NaturalCompare` is its
  specification, and `CompareNames` is the loop of the source proved against
  it.
- `ImageFilter`: extension, filter, comparator, sort and their composition.
- `ImageFilterExamples`: the file-name sort of the unit tests, worked through
  the model.
- `SettingsTypes`: the settings record, a `Settings` class whose path
  validation changes in place, the options form, and the synced storage as a
  value.
- `Options`: validation, saving, resetting and loading.
- `Background`: file names, the download target and the message dispatch.

The sort is modelled as an insertion sort (`Insert`, `SortImages`) over the
comparator the source hands to `Array.prototype.sort`. The sort's input is a
value, so the copy `[...images]` leaves the caller's array as it was. The
contracts state what any correct sort with that comparator promises:

- the result is a permutation of the input;
- no two neighbours are out of order;
- for a numeric key, the key values are monotone;
- ties and file-name sorts follow the natural comparison times the factor.

The options page works on objects: `ValidateSettings` is a method that
modifies a `Settings` object, and `SaveSettings`, `ResetSettings` and
`LoadSettings` are methods over an `OptionsForm` object. The synced storage
goes in as a value and comes back out as a value.

## Model

| member | source | states |
|---|---|---|
| `Strings.BeforeFirst` | src/utils/imageFilter.ts:20 | `split(c)[0]`: the longest prefix without `c`, followed in the string by `c` when it is shorter than the string |
| `Strings.AfterLast` | src/utils/imageFilter.ts:21 | `split(c).pop()`: the longest suffix without `c`, preceded by `c` when it is shorter than the string |
| `Strings.LastIndexOf` | src/utils/imageFilter.ts:22 | `-1` exactly when the character is absent; otherwise an index holding it with no occurrence after it |
| `Strings.AfterLastIndexOf` | src/utils/imageFilter.ts:22-24 | the text after the last index of `c` is the last `split(c)` piece |
| `Strings.ToLower` | src/utils/imageFilter.ts:24 | same length, each character lower-cased, no upper-case letter left |
| `Strings.Trim` | src/options.ts:88 | `s.trim()`: the slice of the input that starts after its leading whitespace, with only whitespace before and after it; empty exactly when the input is all whitespace; otherwise it neither starts nor ends with whitespace |
| `Strings.Includes` | src/options.ts:167-168 | `s.includes(sub)`; no contract of its own, its meaning is stated by `Strings.IncludesAt` |
| `Strings.IncludesAt` | src/options.ts:167-168 | `includes` holds exactly when `sub` occurs at some position of `s` |
| `Strings.IncludesChar` | src/options.ts:168 | `includes` of a one-character string is membership of that character |
| `Strings.AppendSlashNoDotDot` | src/options.ts:176 | appending `/` to a path without `..` creates no `..` |
| `Strings.EndsWith` | src/options.ts:175 | `s.endsWith('/')`; no contract of its own, its meaning is stated by `Strings.EndsWithAppend` |
| `Strings.EndsWithAppend` | src/options.ts:175-177 | a string ends with `c` exactly when it is some string followed by `c`, so appending `c` makes it end with `c` |
| `Strings.ReplaceColonsAndDots` | src/background.ts:110 | same length; every `:` and `.` becomes `-`, every other character is kept; no `:` or `.` is left |
| `ImageFilter.BaseName` | src/utils/imageFilter.ts:19-21 | the file name up to its first `?` when that is not empty, and otherwise the URL's last `/` segment; it holds a `/` only when it is the file-name part |
| `ImageFilter.GetExtension` | src/utils/imageFilter.ts:18-25 | `""` when the base name has no `.`, else the lower-cased text after its last `.`; never contains `.` or an upper-case letter |
| `ImageFilter.ExtensionOf` | src/utils/imageFilter.ts:22-24 | for a base name: `""` when it has no `.`, else the lower-cased text after its last `.`; never contains `.` or an upper-case letter |
| `ImageFilter.GetExtensionOfFilename` | tests/unit/popup/imageFilter.test.ts:50-56 | a file name `stem.ext` without `?` has extension `ext` lower-cased (`img4.SVG` gives `svg`), whatever the URL |
| `ImageFilter.GetExtensionNoDot` | tests/unit/popup/imageFilter.test.ts:54 | a non-empty file name without `?` or `.` has the empty extension (`noext` gives `""`) |
| `ImageFilter.ExtensionAllowed` | src/utils/imageFilter.ts:36-40 | `extensions.size === 0`, membership, or `other` for the empty extension; no contract of its own, its cases are stated by `ImageFilter.KeepByFilename` and `ImageFilter.KeepWithoutExtension` |
| `ImageFilter.Keep` | src/utils/imageFilter.ts:32-41 | the filter's test: size and extension; no contract of its own, its cases are stated by the two lemmas below |
| `ImageFilter.KeepByFilename` | src/utils/imageFilter.ts:32-41 | an image named `stem.ext` passes exactly when it is large enough and the set is empty, holds `ext` lower-cased, or holds `other` while `ext` is empty |
| `ImageFilter.KeepWithoutExtension` | src/utils/imageFilter.ts:35-40 | an image whose file name has no `.` and no `?` passes exactly when it is large enough and the set is empty or holds `other` or the empty string |
| `ImageFilter.FilterImages` | src/utils/imageFilter.ts:27-43 | an order-preserving subsequence whose images all meet the size and extension tests; each image that passes occurs as often as in the input, and no other image occurs |
| `ImageFilter.Compare` | src/utils/imageFilter.ts:52-76 | the comparator handed to `sort`; no contract of its own, its meaning is stated by `ImageFilter.CompareSign` and `ImageFilter.CompareAntisymmetric` |
| `ImageFilter.CompareSign` | src/utils/imageFilter.ts:52-76 | for a numeric key with different values: never zero, and negative exactly when the first value is smaller (ascending) or larger (descending); for equal values and for the file-name key: zero exactly when the natural comparison is zero, and negative exactly when it is negative (ascending) or positive (descending) |
| `ImageFilter.CompareAntisymmetric` | src/utils/imageFilter.ts:52-76 | swapping two images negates the comparator, for every key and order |
| `ImageFilter.Insert` | src/utils/imageFilter.ts:52 | inserting into a sorted list gives a sorted list holding the same images plus the new one |
| `ImageFilter.SortImages` | src/utils/imageFilter.ts:45-77 | a permutation of the input with no neighbours out of order for the comparator |
| `ImageFilter.SortedKeysMonotone` | src/utils/imageFilter.ts:50-75 | in a sorted list every pair, not only neighbours, is in non-decreasing key order for ascending and non-increasing for descending |
| `ImageFilter.SortedTies` | src/utils/imageFilter.ts:68-74 | neighbours with equal key values, or any neighbours for the file-name key, are in natural file-name order times the factor |
| `ImageFilter.SortImagesOrdered` | src/utils/imageFilter.ts:45-77 | the result is a permutation of the input; for a numeric key, every pair is in key order (reversed for descending); neighbours with equal key values, and all neighbours for the file-name key, are in natural file-name order times the factor |
| `ImageFilter.GetFilteredSortedImages` | src/utils/imageFilter.ts:79-86 | equals the sort of the filtered images; sorted; holds exactly the images that pass the filter, as often as they occur in the input |
| `NaturalOrder.ParseDigits` | src/utils/imageFilter.ts:107-108 | `parseInt(s, 10)` of a digit run: a number below `10` to the power of the run's length |
| `NaturalOrder.ParseDigitsLeadingZero` | src/utils/imageFilter.ts:107-108 | a leading zero does not change the value (`007` and `7` are the same number) |
| `NaturalOrder.LexCompare` | src/utils/imageFilter.ts:112-113 | stands for `localeCompare` by code-point order: -1, 0 or 1, and 0 exactly when the strings are equal |
| `NaturalOrder.LexCompareAntisymmetric` | src/utils/imageFilter.ts:112 | swapping the strings negates the comparison |
| `NaturalOrder.Runs` | src/utils/imageFilter.ts:101-102 | `split(/(\d+)/).filter(Boolean)`; no contract of its own, its meaning is stated by `NaturalOrder.RunsSplit` |
| `NaturalOrder.RunsSplit` | src/utils/imageFilter.ts:101-102 | `split(/(\d+)/).filter(Boolean)`: non-empty runs, each all digits or all non-digits, alternating kind, that concatenate back to the name |
| `NaturalOrder.NaturalCompare` | src/utils/imageFilter.ts:100-117 | the fallback comparator; no contract of its own, its properties are stated by the lemmas below and `NaturalOrder.CompareNames` computes it |
| `NaturalOrder.NaturalCompareAntisymmetric` | src/utils/imageFilter.ts:100-117 | swapping the names negates the natural comparison |
| `NaturalOrder.NaturalCompareReflexive` | src/utils/imageFilter.ts:100-117 | a name compares equal to itself |
| `NaturalOrder.CompareRunsFromSkip` | src/utils/imageFilter.ts:104-115 | equal runs at the front are passed over: the first differing pair decides |
| `NaturalOrder.DigitRunsCompareNumerically` | src/utils/imageFilter.ts:107-110 | two names that differ only in one digit run compare as the numbers of those runs |
| `NaturalOrder.CompareNames` | src/utils/imageFilter.ts:100-117 | the comparator's loop over run positions, with `?? ''` past the end and the early returns, computes `NaturalCompare` |
| `ImageFilterExamples.PngOrder` | tests/unit/popup/imageFilter.test.ts:75-97 | names `<digits>.png` compare as their numbers |
| `ImageFilterExamples.TestComparisons` | tests/unit/popup/imageFilter.test.ts:75-97 | `1.png < 2.png < 10.png < 100.png` pairwise under the natural comparison |
| `ImageFilterExamples.SortFourByName` | src/utils/imageFilter.ts:68-69 | four images in natural order given as `a, c, b, d` sort by file name to `a, b, c, d` ascending and to `d, c, b, a` descending |
| `ImageFilterExamples.FilenameSortExample` | tests/unit/popup/imageFilter.test.ts:75-97 | the test's images `1.png, 10.png, 2.png, 100.png` sort to `1, 2, 10, 100` ascending and exactly the reverse descending |
| `SettingsTypes.Settings.constructor` | src/types/settings.ts:2-9 | a settings object holds the five fields of the record it is built from |
| `Options.ValidatedPath` | src/options.ts:164-180 | refused exactly when the path contains `..` or `\`; an accepted path ends in `/`, is the path or the path with `/` appended, and is unchanged when it already ended in `/` |
| `Options.ValidatedPathIdempotent` | src/options.ts:175-177 | validating an accepted path again accepts it and changes nothing |
| `Options.ValidateSettings` | src/options.ts:164-180 | returns true exactly when the path has no `..` and no `\`; then the path ends in `/` and only the path has changed; on false nothing has changed |
| `Options.DefaultedPath` | src/options.ts:88 | the trimmed input or its fallback: `images/` for an all-whitespace input, otherwise the trimmed input, without whitespace at either end |
| `Options.BlankPathSavesDefault` | src/options.ts:88-97 | a blank path box gives `images/`, which validation accepts unchanged |
| `Options.DefaultPathAccepted` | src/options.ts:119 | the default path `images/` passes validation as it is |
| `Options.Store` | src/options.ts:100 | `chrome.storage.sync.set(record)` (also at line 126): each key the record carries is overwritten with its value, the template key is kept when the record has none |
| `Options.GetStoredSettings` | src/options.ts:148-161 | each of the four keys asked for reads back the stored value, or the default when nothing is stored; the template is not read; empty storage gives exactly the defaults |
| `Options.StoreThenGet` | src/options.ts:157-159 | settings stored without a template are read back exactly |
| `Options.SaveSettings` | src/options.ts:85-113 | stores the form's settings, with the defaulted and validated path, exactly when validation accepts that path; the stored path then ends in `/`; a refused path leaves storage as it was |
| `Options.ResetSettings` | src/options.ts:116-145 | stores the defaults, so that reading back gives the defaults, and puts them into the form |
| `Options.LoadSettings` | src/options.ts:67-82 | the form shows the stored settings with defaults filled in |
| `Options.SaveThenLoad` | src/options.ts:67-113 | an accepted save reads back as saved, with a path that ends in `/` and has no `..` |
| `Background.LastSegment` | src/background.ts:107 | the pathname's last `/` segment, or `image.jpg` when that is empty; never empty and never containing `/` |
| `Background.TimestampPart` | src/background.ts:110 | the ISO time with each `:` and `.` turned into `-` and every other character kept |
| `Background.ExtensionAsWritten` | src/background.ts:112 | never empty and without `.`: the last `split('.')` piece (the text after the last `.`, or the whole name when there is no `.`), and `jpg` exactly when that piece is empty |
| `Background.Extension` | src/background.ts:112 | never empty and without `.`: the text after the last `.`, and `jpg` when the name has no `.` or nothing follows its last `.` |
| `Background.ComposeParts` | src/background.ts:114 | cutting `stem_ts.ext` at its first `.` gives `stem_ts`, and cutting it at its last `.` gives `ext` |
| `Background.GenerateFilenameAsWritten` | src/background.ts:104-115 | the name is its part before the first `.`, a `.`, and its part after the last `.`; the first part is the segment's stem, `_` and the timestamp; the last is the extension as the code computes it; no `/` when the time has none |
| `Background.AsWrittenRepeatsName` | src/background.ts:111-112 | for a last segment without `.`, the code's extension is the segment itself, while the intended one is `jpg` |
| `Background.PhotoExample` | src/background.ts:112 | the pathname `/photo` gets the extension `photo` |
| `Background.GenerateFilename` | src/background.ts:104-115 | the same three-part shape as the code's name, with the intended extension |
| `Background.SameWhenNameHasDot` | src/background.ts:111-112 | when the last segment has a `.`, both versions give the same name |
| `Background.DownloadTargetAsWritten` | src/background.ts:60-79 | `downloadImage` as written: no download exactly when there is no non-empty caller name and the URL does not parse; otherwise the download path followed by the caller's name, or else by `GenerateFilenameAsWritten` of the URL's pathname |
| `Background.DownloadTarget` | src/background.ts:60-79 | the same target with the intended extension: the download path followed by the caller's name, or else by `GenerateFilename` of the pathname; no download exactly when neither exists |
| `Background.DownloadTargetsAgree` | src/background.ts:63 | the two targets are equal whenever the caller gives a name, the URL does not parse, or the last segment has a `.` |
| `Background.GeneratedTargetInFolder` | src/background.ts:63-67 | with a folder path ending in `/` and no caller name, the target's last segment is the generated name, so its stem and timestamp come out intact |
| `Background.AsWrittenDownloadRepeatsName` | src/background.ts:63-67 | as written, a URL whose last segment `name` has no `.` is saved in the folder under a name whose extension is `name` itself |
| `Background.InFolder` | src/background.ts:67 | a name without `/` after a folder ending in `/` is the joined path's last segment |
| `Background.Dispatch` | src/background.ts:44-56 | `DOWNLOAD_IMAGE` starts a download with the request's URL and name; `GET_SETTINGS` and `SAVE_SETTINGS` start their work and keep the channel open; every other type warns; only the two settings types return `true` |

## Left out

- `src/content.ts`, `src/popup.ts` and the DOM wiring of `src/options.ts` are
  not modelled. They are user interface and event plumbing: hover buttons,
  observers, notifications, status messages and timers.
- The browser APIs are not modelled.
  - `chrome.storage.sync` is the value `SyncStorage`, and a write overwrites
    the keys it carries.
  - `chrome.downloads.download`, its callback and `lastError` are not
    modelled.
  - The `onInstalled` defaults are not modelled.
  - The background `getSettings` and `saveSettings` are not modelled: the
    model dispatches to them and stops there.
- `new URL(...)` and `new Date().toISOString()` are inputs.
  `DownloadTarget` takes the URL's pathname as an `Option`, with `None`
  standing for a URL that throws, and it takes the ISO time as a string.
- The `Intl.Collator` branch is not modelled. It is locale behaviour of the
  host. The fallback comparator is modelled instead.
- `localeCompare` is code-point order (`LexCompare`), so locale collation is
  not modelled.
- `toLowerCase` lower-cases the ASCII letters only.
- `parseInt` is exact on unbounded integers. The rounding of very long digit
  runs to a double is not modelled.
- Widths and heights are integers. The `|| 0` fallback for a missing or zero
  value and JavaScript number arithmetic (`NaN`, doubles) are not modelled.
- The file name fields are strings, so the `|| ''` fallbacks for missing
  values are not modelled.
- `ImageFilter.SortImages`: stability is not a contract.
- `ImageFilter.SortImagesOrdered`: the tie order by file name is stated for neighbours only, not for every pair of equal-key images, because the comparator's transitivity is not proved.
- `ImageFilter.SortImages`: the comparator's transitivity is not proved, so
  sortedness is stated for neighbours only.
  - Pairwise order is proved for the numeric keys only, through
    `SortedKeysMonotone`.
  - The exact ascending and descending outcome of the file-name test is
    derived for those names only.
- `Array.prototype.sort` may compare the images in any order. The model fixes
  one algorithm, an insertion sort. Its result is the one the source
  guarantees only up to the contracts above.
- The select value cast `as Settings['fileNaming']` is not modelled. The form
  holds a `FileNaming` directly.
- Template-mode naming, a sequence counter and a path sanitizer are not
  modelled. None of them exists in the code; only the `template` variant and
  the optional `fileNameTemplate` are declared. The default settings and the
  save, reset and load paths follow the code.
- The concrete fixtures of the size-filter test are not worked through
  (tests/unit/popup/imageFilter.test.ts:58-73). `FilterImages`,
  `SortedKeysMonotone` and `SortImagesOrdered` state the general property
  instead.
- The defaults are written twice in the source
  (src/options.ts:118-123 and 150-155). The two literals are identical, so the
  model writes them once, as `Options.Defaults`.

## Findings

| source | as written | input that shows it | evidently intended | confidence | as-written member | corrected member |
|---|---|---|---|---|---|---|
| src/background.ts:112 | the last `split('.')` piece, with `jpg` as fallback, is the whole name when the name has no `.`, so the `jpg` fallback never applies to it | pathname `/photo` gives `photo_<timestamp>.photo` | an extension-less name gets the extension `jpg` | not executed | `Background.GenerateFilenameAsWritten`, `Background.DownloadTargetAsWritten`, `Background.AsWrittenRepeatsName`, `Background.AsWrittenDownloadRepeatsName`, `Background.PhotoExample` | `Background.GenerateFilename` with `Background.Extension`, used by `Background.DownloadTarget`; `Background.DownloadTargetsAgree` shows where the two agree |

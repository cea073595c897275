# Focal-length report, modelled in Dafny

This project models the decision logic of `analyze_focal_lengths.py`. That
script scans a folder of photos, reads five metadata values per photo with an
external tool, and turns each photo's values into a camera label, a native
focal length and a 35 mm-equivalent focal length. It counts the rounded
values in two counters and writes two tables sorted by key.

The modules follow the script's parts:

- `Wrappers`: `Option`, standing for Python's `None`.
- `Strings`: the `str` operations the script uses. These are `upper`, `lower`,
  the substring test `in`, and the `<` ordering that `sorted` applies to strings.
- `Numbers`: `to_float`, Python's `float` on the matched text, and Python's `round`.
- `Metadata`: `exif_vals` after the tool has run. This is
  `dict(zip(keys, lines + [None]*5))`.
- `Normalize`: `camera` and `ff_equiv`. `ff_equiv` has two forms. `Equiv` is
  the priority chain, for use from functions and lemmas. `FfEquiv` is the
  loop over the two tags as the source writes it, proved equal to `Equiv`.
- `Counters`: `collections.Counter`, holding (key, count) items in insertion
  order as a Python dict does. It has `c[k] += 1` and `sorted(c.items())`;
  the sort is an insertion sort by key.
- `FocalReport`: the extension filter and the loop of `main`. `HistOf` and
  `CamOf` are the two counters after the loop. `Analyze` is `main` on values.
  `Run` is the loop of `main`, which folds each file into both counters,
  proved equal to `Analyze`. `main`'s three ends are the `Outcome` datatype.

Three behaviours of the code matter for the numbers it reports:

- Python's `round` rounds halves to the even neighbour. A 23 mm FUJIFILM frame
  has a 34.5 mm equivalent and is therefore counted under 34.
  `Numbers.RoundHalfEven` and `FocalReport.FujifilmCropExample` state this.
- `if mm:` tests truthiness, so a tag whose value parses to 0 is skipped like
  a missing one. `Normalize.EquivSkipsZeroTag` states this.
- The record is positional: the i-th printed line goes under the i-th key. If
  the tool prints fewer lines because a tag in the middle is missing, later
  values move to earlier keys. The model assigns the lines exactly as written
  (`Metadata.ExifVals`, `Metadata.ExifValsPositional`).

Two preconditions stand for cases where the script raises an exception:

- `float` raises `ValueError` on a matched run such as `"1.2.3"` or `"."`.
  `Numbers.ToFloat` requires `Parsable`. `Normalize.TagsParsable` asks this
  of FL35Comp always and of FL35 only when FL35Comp is not truthy, because
  the loop of `ff_equiv` returns at the first truthy tag and never parses the
  second. `FocalReport.CompositeTagExample` shows a file whose FL35 is
  `"1.2.3"` and whose FL35Comp is `"35 mm"`: its `ff_mm` is 35.0 and the
  histogram counts it under 35.
- `Normalize.Equiv` and `Normalize.FfEquiv` require `EquivDefined`. Line 44
  calls `.upper()` on `meta.get("Make", "")`, which fails when `Make` is
  stored as `None`. `Normalize.ExifValsEquivDefined` proves that no record
  built by `exif_vals` can reach that case.

## Model

| member | source | states |
|---|---|---|
| `Strings.Upper` | analyze_focal_lengths.py:32 | `s.upper()` keeps the length and upper-cases each ASCII letter |
| `Strings.Lower` | analyze_focal_lengths.py:57 | `s.lower()` keeps the length and lower-cases each ASCII letter |
| `Strings.UpperIdempotent` | analyze_focal_lengths.py:32-35 | upper-casing an upper-cased make again changes nothing |
| `Strings.UpperOfLower` | analyze_focal_lengths.py:35 | upper-casing forgets the letter case: a lower-cased string upper-cases to the same string |
| `Strings.ContainsIff` | analyze_focal_lengths.py:34-35 | the scan behind `sub in s` succeeds exactly when `sub` occurs in `s` at some position |
| `Strings.ContainsInfix` | analyze_focal_lengths.py:34-35 | a marker found in part of a string is found in any string around it |
| `Strings.StrLessIff` | analyze_focal_lengths.py:88 | Python's string `<` holds exactly when, after a common prefix, the left string ends first or has the smaller code point |
| `Strings.StrLessExample` | analyze_focal_lengths.py:88 | `"CANON"` sorts before `"XT5"`, `"XT5"` before `"XT5 II"`, and `"XT5"` before `"iPhone"` |
| `Strings.StrLessIrreflexive` | analyze_focal_lengths.py:88 | Python's string `<` is irreflexive |
| `Strings.StrLessTransitive` | analyze_focal_lengths.py:88 | Python's string `<` is transitive |
| `Strings.StrLessConnected` | analyze_focal_lengths.py:88 | any two different strings are ordered one way or the other |
| `Numbers.LeadingRun` | analyze_focal_lengths.py:26-28 | `num.match` captures a prefix made of digits and dots that cannot be extended (maximal) |
| `Numbers.ToFloat` | analyze_focal_lengths.py:26-29 | `to_float` is None exactly for a missing or empty value or one that does not start with a digit or dot; otherwise it is the value of the leading run, and never negative |
| `Numbers.LeadingRunStops` | analyze_focal_lengths.py:26-28 | matching stops at the first character that is not a digit or dot |
| `Numbers.TrailingTextIgnored` | analyze_focal_lengths.py:26-29 | trailing unit text such as " mm" changes neither whether `to_float` raises nor what it returns |
| `Numbers.DigitsHaveNoDot` | analyze_focal_lengths.py:29 | a run of digits only has no dot and no fraction |
| `Numbers.IntValOfDigits` | analyze_focal_lengths.py:29 | reading the decimal digits of n gives back n |
| `Numbers.ToFloatOfDigits` | analyze_focal_lengths.py:26-29 | the digits of a whole number followed by any non-numeric text parse back to that number (parse inverts print) |
| `Numbers.ToFloatExample` | analyze_focal_lengths.py:27 | "35 mm" gives 35.0 |
| `Numbers.DigitsOnlyAppend` | analyze_focal_lengths.py:29 | removing the dots of a concatenation removes them from each part, in order |
| `Numbers.IntValAppend` | analyze_focal_lengths.py:29 | appending digits to a numeral shifts its value left by that many decimal places |
| `Numbers.LiteralValueOfDecimal` | analyze_focal_lengths.py:29 | `float` on digits, one dot and digits gives the integer part plus the fraction digits over ten to their number ("34.5", ".5" and "35." included) |
| `Numbers.ToFloatOfDecimal` | analyze_focal_lengths.py:26-29 | the digits of n, a dot and fraction digits, followed by non-numeric text, parse to n plus the fraction (parse inverts print for decimal lengths) |
| `Numbers.ToFloatDecimalExample` | analyze_focal_lengths.py:26-29 | "23.0 mm" gives 23.0 |
| `Numbers.ToFloatHalfExample` | analyze_focal_lengths.py:26-29 | "34.5 mm" gives 34.5 |
| `Numbers.Round` | analyze_focal_lengths.py:72 | `round` gives an integer within 1/2 of its argument, and the even one on a tie |
| `Numbers.RoundHalfEven` | analyze_focal_lengths.py:72 | 34.5 rounds to 34 and 35.5 to 36 |
| `Metadata.Zip` | analyze_focal_lengths.py:24 | `zip` has the length of the shorter input and pairs elements index by index |
| `Metadata.DictOf` | analyze_focal_lengths.py:24 | `dict(pairs)` has exactly the keys of the pairs, and the last pair's value wins |
| `Metadata.DictOfLookup` | analyze_focal_lengths.py:24 | with distinct keys, `dict(pairs)` maps each key to its own pair's value |
| `Metadata.Padded` | analyze_focal_lengths.py:24 | `lines + [None]*5` holds every line and then five Nones |
| `Metadata.ExifVals` | analyze_focal_lengths.py:23-24 | the record has exactly the keys Make, Model, FL, FL35, FL35Comp; the i-th line goes under the i-th key, and keys past the last line hold None |
| `Metadata.ExtraLinesIgnored` | analyze_focal_lengths.py:24 | lines past the fifth never reach the record |
| `Metadata.ExifValsPositional` | analyze_focal_lengths.py:23-24 | once a key has no line, every later key has none either |
| `Normalize.Camera` | analyze_focal_lengths.py:31-36 | the label is "iPhone", "XT5", the model, the upper-cased make or "Unknown"; it is empty only for a FUJIFILM make with an empty model |
| `Normalize.CameraModelCaseIgnored` | analyze_focal_lengths.py:35 | for a FUJIFILM make, any model whose upper-cased form names an X-T5 gives "XT5", and so does its lower-cased spelling |
| `Normalize.CameraFujifilmRawModel` | analyze_focal_lengths.py:35 | a FUJIFILM make whose model does not name an X-T5 reports the stored model text, the empty string included |
| `Normalize.CameraModelBeatsMake` | analyze_focal_lengths.py:36 | for a make with neither marker, a non-empty model is the label whatever the make |
| `Normalize.CameraMakeFallback` | analyze_focal_lengths.py:36 | for a make with neither marker and an empty model, the upper-cased make is the label |
| `Normalize.CameraAppleIgnoresModel` | analyze_focal_lengths.py:34 | an APPLE make gives "iPhone" whatever the model |
| `Normalize.CameraMakeCaseInsensitive` | analyze_focal_lengths.py:32-36 | upper-casing the stored make never changes the label |
| `Normalize.MissingCharNotContained` | analyze_focal_lengths.py:34-35 | a make or model lacking a character of a marker does not contain that marker |
| `Normalize.UpperOfUpperCase` | analyze_focal_lengths.py:32 | a string without lower-case letters is its own upper-case form |
| `Normalize.CameraExampleApple` | analyze_focal_lengths.py:34 | make "APPLE INC." gives "iPhone" |
| `Normalize.CameraExampleXT5` | analyze_focal_lengths.py:35 | make "FUJIFILM", model "X-T5 " gives "XT5" |
| `Normalize.CameraExampleLowerXT5` | analyze_focal_lengths.py:35 | make "FUJIFILM", model "x-t5" gives "XT5" |
| `Normalize.CameraExampleX100V` | analyze_focal_lengths.py:35 | make "FUJIFILM", model "X100V" gives "X100V" |
| `Normalize.CameraExampleCanon` | analyze_focal_lengths.py:36 | make "Canon", model "EOS R5" gives "EOS R5" |
| `Normalize.CameraExampleCanonNoModel` | analyze_focal_lengths.py:36 | make "Canon", empty model gives "CANON" |
| `Normalize.CameraExampleFujifilmNoModel` | analyze_focal_lengths.py:35 | make "FUJIFILM", empty model gives the empty label |
| `Normalize.CameraExampleUnknown` | analyze_focal_lengths.py:36 | an empty or missing make and model give "Unknown" |
| `Normalize.Equiv` | analyze_focal_lengths.py:38-44 | FL35 need only parse when FL35Comp is not truthy; the priority chain gives no value only without a native length, and gives no negative value from a non-negative native length |
| `Normalize.FfEquiv` | analyze_focal_lengths.py:38-44 | a truthy FL35Comp wins; otherwise a truthy FL35; otherwise None without a native length, else native × 1.5 for a FUJIFILM make and native × 1.0 for any other; the loop equals `Equiv` |
| `Normalize.EquivSkipsZeroTag` | analyze_focal_lengths.py:40-42 | a tag that parses to 0 is treated exactly as a missing tag |
| `Normalize.ExifValsEquivDefined` | analyze_focal_lengths.py:24-44 | a record from `exif_vals` never makes line 44 raise: without a make there is no native length |
| `Counters.KeySetCons` | analyze_focal_lengths.py:72 | the keys of a counter with one more item in front |
| `Counters.Inc` | analyze_focal_lengths.py:72 | `c[k] += 1` adds `k` to the keys and one to the total |
| `Counters.ValidTail` | analyze_focal_lengths.py:72 | dropping the first item keeps a counter valid, and its key does not recur |
| `Counters.IncValid` | analyze_focal_lengths.py:72-74 | increments keep every key unique with a count of at least 1 |
| `Counters.IncCount` | analyze_focal_lengths.py:72 | `c[k] += 1` adds one to the count of `k` and leaves every other count alone |
| `Counters.IncAppends` | analyze_focal_lengths.py:72 | a new key is appended with count 1, as a dict inserts it |
| `Counters.CountOfItem` | analyze_focal_lengths.py:84 | an item of the counter carries the count the counter reports for its key |
| `Counters.CountAbsent` | analyze_focal_lengths.py:72 | a missing key counts 0 |
| `Counters.CountPositive` | analyze_focal_lengths.py:78 | in a valid counter, a key has a positive count exactly when it is present |
| `Counters.ValidEmptyIffZero` | analyze_focal_lengths.py:78 | a valid counter is empty exactly when its total is 0 |
| `Counters.ConsAscending` | analyze_focal_lengths.py:84 | a key below every key of an ascending sequence can go in front |
| `Counters.AscendingTail` | analyze_focal_lengths.py:84 | an ascending sequence's tail is ascending and above its head |
| `Counters.Insert` | analyze_focal_lengths.py:84 | inserting adds exactly the one item |
| `Counters.InsertLowerBound` | analyze_focal_lengths.py:84 | a lower bound of the item and of the sequence bounds the result |
| `Counters.SortByKey` | analyze_focal_lengths.py:84 | `sorted` returns a permutation of the items |
| `Counters.InsertSum` | analyze_focal_lengths.py:84 | inserting an item adds its count to the total |
| `Counters.SortSum` | analyze_focal_lengths.py:84 | sorting keeps the total |
| `Counters.KeySetOfPermutation` | analyze_focal_lengths.py:84 | reordered items keep the same keys |
| `Counters.InsertAscending` | analyze_focal_lengths.py:84 | inserting a new key into an ascending sequence keeps it ascending |
| `Counters.SortAscending` | analyze_focal_lengths.py:84 | with distinct keys, `sorted` gives strictly ascending keys |
| `Counters.SortedItems` | analyze_focal_lengths.py:84-89 | the sorted rows of a counter have strictly ascending keys and are exactly its items: one row per key, each with the count of its key (at least 1), and the same total |
| `FocalReport.LastDot` | analyze_focal_lengths.py:57 | `rfind('.')` finds the last dot, or -1 without one |
| `FocalReport.Suffix` | analyze_focal_lengths.py:57 | a non-empty suffix is a proper ending of the name that starts with its only dot and has at least one character after it |
| `FocalReport.LastDotOfAppend` | analyze_focal_lengths.py:57 | the last dot of stem + extension is the extension's dot |
| `FocalReport.ImageName` | analyze_focal_lengths.py:15-57 | a non-empty stem with one of the four extensions, in any case, is kept |
| `FocalReport.HiddenFileIsNotImage` | analyze_focal_lengths.py:57 | ".jpg" alone has no suffix and is not kept |
| `FocalReport.Images` | analyze_focal_lengths.py:57 | every kept file is an input file with an image suffix, and there are no more of them than inputs |
| `FocalReport.ImagesMultiplicity` | analyze_focal_lengths.py:57 | each image entry is kept as often as it occurs, and every other entry is dropped |
| `FocalReport.Observe` | analyze_focal_lengths.py:66-69 | a file with a native length also has an equivalent length, and neither is negative |
| `FocalReport.ObservationAt` | analyze_focal_lengths.py:64-69 | the i-th observation is what the loop body derives from the i-th file's record |
| `FocalReport.CountersValid` | analyze_focal_lengths.py:61-74 | after the loop every key of both counters has a count of at least 1 |
| `FocalReport.HistTotal` | analyze_focal_lengths.py:71-72 | the histogram's counts add up to the number of files whose `ff_mm` is truthy |
| `FocalReport.HistCount` | analyze_focal_lengths.py:71-72 | the count under each key is the number of files whose `ff_mm` is truthy and rounds to it |
| `FocalReport.CamCount` | analyze_focal_lengths.py:73-74 | the count under each (label, native, equivalent) key is the number of files with both lengths truthy whose label and rounded lengths are that key |
| `FocalReport.CamTotal` | analyze_focal_lengths.py:71-74 | the per-camera counts add up to the files with both `native` and `ff_mm` truthy, never more than the histogram's total |
| `FocalReport.IntLessOrder` | analyze_focal_lengths.py:84 | `<` on the integer keys is a strict total order |
| `FocalReport.CamLessOrder` | analyze_focal_lengths.py:88 | `<` on the (camera, native, equivalent) keys is a strict total order |
| `FocalReport.FujifilmCropExample` | analyze_focal_lengths.py:44-72 | a FUJIFILM X-T5 file with only a native "23 mm" gives camera "XT5", equivalent 34.5 and key 34 |
| `FocalReport.FujifilmMeta` | analyze_focal_lengths.py:24 | the record of that file's three lines |
| `FocalReport.FujifilmParts` | analyze_focal_lengths.py:38-44 | that record's native length, label and equivalent length |
| `FocalReport.FujifilmNative` | analyze_focal_lengths.py:67 | "23 mm" parses to 23.0 |
| `FocalReport.FujifilmCamera` | analyze_focal_lengths.py:35 | make FUJIFILM with model "X-T5" gives "XT5" |
| `FocalReport.FujifilmEquiv` | analyze_focal_lengths.py:43-44 | with no tag and make FUJIFILM, 23 mm gives 34.5 mm |
| `FocalReport.CompositeTagExample` | analyze_focal_lengths.py:40-42 | a truthy FL35Comp of "35 mm" is returned while an FL35 of "1.2.3", which `float` rejects, is never parsed |
| `FocalReport.CompositeMeta` | analyze_focal_lengths.py:24 | the record of that file's five lines |
| `FocalReport.CompositeParts` | analyze_focal_lengths.py:38-42 | that record gives native 23.0, label "XT5" and equivalent 35.0 |
| `FocalReport.UnparsableRun` | analyze_focal_lengths.py:26-29 | "1.2.3" has two dots, so `to_float` raises on it |
| `FocalReport.HistogramExample` | analyze_focal_lengths.py:71-84 | files at 24, 24 and 48 mm give exactly the rows (24, 2) then (48, 1) |
| `FocalReport.HistRows` | analyze_focal_lengths.py:82-84 | the histogram table is strictly ascending and is a permutation of the counter; each row's count is the number of files at its key (at least 1), and the counts add up to the files with a truthy `ff_mm` |
| `FocalReport.CamRows` | analyze_focal_lengths.py:86-89 | the per-camera table is strictly ascending and is a permutation of the counter; each row's count is the number of files with that label and those rounded lengths (at least 1), and its total is at most the histogram's |
| `FocalReport.AnalyzeExits` | analyze_focal_lengths.py:57-79 | with no image file `main` stops first; with image files but no truthy `ff_mm` it stops second; otherwise it reports the two sorted counters |
| `FocalReport.Run` | analyze_focal_lengths.py:57-89 | the loop that folds each file into both counters ends in the same outcome as `Analyze`; it stops with no images exactly when no file is kept |

## Left out

- The run of `exiftool` and its `check=True` failure (lines 20-22): it is an external process. `strip` and `splitlines` (line 24) are taken as already applied: each file's output lines are an input.
- `show_progress` and clearing the terminal (lines 46-49, 76): they only write to the terminal.
- `expanduser`, `is_dir` and `rglob` (lines 53-57): these are filesystem access. Each discovered file is an input entry with its name. Only the suffix filter is modelled. The `sys.exit` for a missing folder is left out with them.
- Writing the CSV files, the chart, `datetime.now()` and the final `print` (lines 82-101): these are I/O and plotting libraries, so only the sorted row sequences are modelled.
- The command-line argument check (lines 103-106): it is I/O.
- `TodoApp/generate_icons.py` is not part of this model. It is a straight sequence of library calls with no decisions.
- Focal lengths are exact reals, not IEEE doubles. `float` rounding and `round` on inexact doubles are not modelled.
- `Strings.Upper`: maps ASCII letters only. Python's `upper` also maps other Unicode letters, and it can lengthen a string (`"ß"` gives `"SS"`).
- `Strings.Lower`: maps ASCII letters only, unlike Python's Unicode `lower`.
- `Numbers.LeadingRun`: treats only the ASCII digits as `\d`. The pattern also matches other Unicode decimal digits, which `float` accepts too.
- `FocalReport.Suffix`: follows the classic `pathlib` rule, where a trailing dot gives no suffix. Python versions that count a lone trailing dot as a suffix do not match it. Such names are never images in either case.
- The two counters are local sequences that `Run` rebinds through `Counters.Inc`, not objects updated in place. Nothing else refers to them, so no aliasing is lost.
- The files `rglob` returns in an unspecified order are taken in the order given.

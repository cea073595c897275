/**
 * The report driver `main`: it keeps the image files, folds each file's
 * observation into the two counters, stops early when there is nothing to
 * report, and emits each counter's rows in ascending key order.  Discovering
 * files, the metadata tool, progress output, the CSV and chart files are not
 * modelled: the input is the list of file names with the tool's output lines
 * for each, and the output is the two sorted row sequences.
 */
module FocalReport {
  import opened Wrappers
  import opened Strings
  import opened Numbers
  import opened Metadata
  import opened Normalize
  import opened Counters

  /** IMG_EXTS, the supported extensions. */
  const ImageExts: set<string> := {".jpg", ".jpeg", ".heic", ".heif"}

  /** `name.rfind('.')`: the index of the last dot, or -1 without one. */
  function LastDot(name: string): (i: int)
    ensures -1 <= i < |name|
    ensures i >= 0 ==> name[i] == '.'
    ensures forall j :: i < j < |name| ==> name[j] != '.'
  {
    if name == [] then -1
    else if name[|name| - 1] == '.' then |name| - 1
    else LastDot(name[..|name| - 1])
  }

  /**
   * pathlib's `suffix` of a file name: from its last dot to the end, but
   * empty when there is no dot, when the dot is the first character (a
   * hidden file such as ".jpg") or when it is the last.
   */
  function Suffix(name: string): (ext: string)
    ensures ext != [] ==>
      && 2 <= |ext| < |name|
      && ext == name[|name| - |ext|..]
      && ext[0] == '.'
      && (forall j :: 0 < j < |ext| ==> ext[j] != '.')
  {
    var i := LastDot(name);
    if 0 < i < |name| - 1 then name[i..] else ""
  }

  /** `f.suffix.lower() in IMG_EXTS`. */
  predicate IsImage(name: string)
  {
    Lower(Suffix(name)) in ImageExts
  }

  lemma {:induction false} LastDotOfAppend(stem: string, ext: string)
    requires ext != [] && ext[0] == '.'
    requires forall j :: 0 < j < |ext| ==> ext[j] != '.'
    ensures LastDot(stem + ext) == |stem|
    decreases |ext|
  {
    var s := stem + ext;
    if |ext| > 1 {
      assert s[..|s| - 1] == stem + ext[..|ext| - 1];
      LastDotOfAppend(stem, ext[..|ext| - 1]);
    }
  }

  /**
   * A non-empty stem followed by a supported extension, in any letter case
   * ("IMG_0042.JPG", "x.Heic"), names an image.
   */
  lemma ImageName(stem: string, ext: string)
    requires stem != []
    requires Lower(ext) in ImageExts
    ensures IsImage(stem + ext)
  {
    var lo := Lower(ext);
    assert lo[0] == '.' && forall j :: 0 < j < |lo| ==> lo[j] != '.';
    assert ext[0] == '.';
    LastDotOfAppend(stem, ext);
    assert (stem + ext)[|stem|..] == ext;
  }

  /** A hidden file has no suffix: ".jpg" alone is not an image. */
  lemma HiddenFileIsNotImage(rest: string)
    requires forall j :: 0 <= j < |rest| ==> rest[j] != '.'
    ensures !IsImage("." + rest)
  {
    assert Lower("") == "";
  }

  /** One discovered file: its name and the lines the metadata tool printed for it. */
  datatype Entry = Entry(name: string, lines: seq<string>)

  /**
   * `[f for f in ... if f.suffix.lower() in IMG_EXTS]`, keeping the order;
   * `ImagesMultiplicity` states how often each entry is kept.
   */
  function Images(entries: seq<Entry>): (files: seq<Entry>)
    ensures |files| <= |entries|
    ensures forall i :: 0 <= i < |files| ==> files[i] in entries && IsImage(files[i].name)
  {
    if entries == [] then []
    else
      var rest := Images(entries[1..]);
      assert forall e :: e in entries[1..] ==> e in entries;
      if IsImage(entries[0].name) then [entries[0]] + rest else rest
  }

  /**
   * The filter keeps each image entry as many times as it occurs (two photos
   * with equal names and equal metadata are both counted) and drops every
   * other entry.
   */
  lemma {:induction false} ImagesMultiplicity(entries: seq<Entry>, e: Entry)
    ensures multiset(Images(entries))[e] == if IsImage(e.name) then multiset(entries)[e] else 0
  {
    if entries != [] {
      var x, tail := entries[0], entries[1..];
      assert entries == [x] + tail;
      assert multiset(entries) == multiset([x]) + multiset(tail);
      ImagesMultiplicity(tail, e);
      if IsImage(x.name) {
        assert Images(entries) == [x] + Images(tail);
        assert multiset(Images(entries)) == multiset([x]) + multiset(Images(tail));
      }
    }
  }

  /** None of the numeric values of a record makes `float` raise. */
  predicate LinesParsable(lines: seq<string>)
  {
    var meta := ExifVals(lines);
    Parsable(Get(meta, "FL")) && TagsParsable(meta)
  }

  /** Every image file's metadata can be parsed. */
  predicate AllParsable(entries: seq<Entry>)
  {
    forall i :: 0 <= i < |entries| ==> IsImage(entries[i].name) ==> LinesParsable(entries[i].lines)
  }

  /** What the loop body derives from one file: `cam`, `native` and `ff_mm`. */
  datatype Obs = Obs(cam: string, native: Option<real>, ff: Option<real>)

  function Observe(lines: seq<string>): (o: Obs)
    requires LinesParsable(lines)
    ensures o.native.Some? ==> o.native.value >= 0.0 && o.ff.Some? && o.ff.value >= 0.0
  {
    var meta := ExifVals(lines);
    var native := ToFloat(Get(meta, "FL"));
    ExifValsEquivDefined(lines);
    Obs(Camera(meta), native, Equiv(meta, native))
  }

  predicate FilesParsable(files: seq<Entry>)
  {
    forall i :: 0 <= i < |files| ==> LinesParsable(files[i].lines)
  }

  /** The observations of the files, in order. */
  function Observations(files: seq<Entry>): (obs: seq<Obs>)
    requires FilesParsable(files)
    ensures |obs| == |files|
  {
    if files == [] then []
    else Observations(files[..|files| - 1]) + [Observe(files[|files| - 1].lines)]
  }

  /** Every prefix of parsable files is parsable. */
  lemma FilesParsablePrefix(files: seq<Entry>, n: nat)
    requires FilesParsable(files) && n <= |files|
    ensures FilesParsable(files[..n])
  {
    forall j | 0 <= j < n ensures LinesParsable(files[..n][j].lines) {
      assert files[..n][j] == files[j];
    }
  }

  /** The i-th observation is what the loop body derives from the i-th file. */
  lemma {:induction false} ObservationAt(files: seq<Entry>, i: nat)
    requires FilesParsable(files) && i < |files|
    ensures Observations(files)[i] == Observe(files[i].lines)
  {
    var n := |files| - 1;
    FilesParsablePrefix(files, n);
    var prev, last := Observations(files[..n]), Observe(files[n].lines);
    assert Observations(files) == prev + [last];
    if i < n {
      assert files[..n][i] == files[i];
      ObservationAt(files[..n], i);
      assert (prev + [last])[i] == prev[i];
    } else {
      assert i == n;
      assert (prev + [last])[n] == last;
    }
  }

  /** The key of the per-camera counter: label, rounded native and rounded equivalent length. */
  type CamKey = (string, int, int)

  /** One step of the loop on `hist`: `if ff_mm: hist[round(ff_mm)] += 1`. */
  function HistStep(hist: Items<int>, o: Obs): Items<int>
  {
    if Truthy(o.ff) then Inc(hist, Round(o.ff.value)) else hist
  }

  /** One step of the loop on `camfx`: counted only when both lengths are truthy. */
  function CamStep(camfx: Items<CamKey>, o: Obs): Items<CamKey>
  {
    if Truthy(o.native) && Truthy(o.ff)
    then Inc(camfx, (o.cam, Round(o.native.value), Round(o.ff.value)))
    else camfx
  }

  /** `hist` after the loop has seen `obs`. */
  function HistOf(obs: seq<Obs>): Items<int>
  {
    if obs == [] then [] else HistStep(HistOf(obs[..|obs| - 1]), obs[|obs| - 1])
  }

  /** `camfx` after the loop has seen `obs`. */
  function CamOf(obs: seq<Obs>): Items<CamKey>
  {
    if obs == [] then [] else CamStep(CamOf(obs[..|obs| - 1]), obs[|obs| - 1])
  }

  /** The number of files with a truthy equivalent length. */
  function Tally(obs: seq<Obs>): nat
  {
    if obs == [] then 0 else Tally(obs[..|obs| - 1]) + (if Truthy(obs[|obs| - 1].ff) then 1 else 0)
  }

  /** The number of files whose equivalent length is truthy and rounds to `k`. */
  function KeyTally(obs: seq<Obs>, k: int): nat
  {
    if obs == [] then 0
    else
      var o := obs[|obs| - 1];
      KeyTally(obs[..|obs| - 1], k) + (if Truthy(o.ff) && Round(o.ff.value) == k then 1 else 0)
  }

  /** The number of files with both a truthy native and a truthy equivalent length. */
  function CamTally(obs: seq<Obs>): nat
  {
    if obs == [] then 0
    else
      var o := obs[|obs| - 1];
      CamTally(obs[..|obs| - 1]) + (if Truthy(o.native) && Truthy(o.ff) then 1 else 0)
  }

  /**
   * The number of files counted under the per-camera key `k`: both lengths
   * truthy, the file's label, and `k`'s rounded native and equivalent lengths.
   */
  function CamKeyTally(obs: seq<Obs>, k: CamKey): nat
  {
    if obs == [] then 0
    else
      var o := obs[|obs| - 1];
      CamKeyTally(obs[..|obs| - 1], k)
        + (if Truthy(o.native) && Truthy(o.ff) && o.cam == k.0
              && Round(o.native.value) == k.1 && Round(o.ff.value) == k.2
           then 1 else 0)
  }

  /** Both counters stay valid: every key has a count of at least 1. */
  lemma {:induction false} CountersValid(obs: seq<Obs>)
    ensures Valid(HistOf(obs)) && Valid(CamOf(obs))
  {
    if obs != [] {
      var init, o := obs[..|obs| - 1], obs[|obs| - 1];
      CountersValid(init);
      if Truthy(o.ff) {
        IncValid(HistOf(init), Round(o.ff.value));
      }
      if Truthy(o.native) && Truthy(o.ff) {
        IncValid(CamOf(init), (o.cam, Round(o.native.value), Round(o.ff.value)));
      }
    }
  }

  /** The histogram's counts add up to the number of files with a truthy equivalent length. */
  lemma {:induction false} HistTotal(obs: seq<Obs>)
    ensures Sum(HistOf(obs)) == Tally(obs)
  {
    if obs != [] {
      HistTotal(obs[..|obs| - 1]);
    }
  }

  /** The histogram counts, under each key, the files whose equivalent length rounds to it. */
  lemma {:induction false} HistCount(obs: seq<Obs>, k: int)
    ensures Count(HistOf(obs), k) == KeyTally(obs, k)
  {
    if obs != [] {
      var init, o := obs[..|obs| - 1], obs[|obs| - 1];
      HistCount(init, k);
      if Truthy(o.ff) {
        IncCount(HistOf(init), Round(o.ff.value), k);
      }
    }
  }

  /**
   * The per-camera counter holds, under each (label, native, equivalent) key,
   * the number of files whose label and rounded lengths are that key.
   */
  lemma {:induction false} CamCount(obs: seq<Obs>, k: CamKey)
    ensures Count(CamOf(obs), k) == CamKeyTally(obs, k)
  {
    if obs != [] {
      var init, o := obs[..|obs| - 1], obs[|obs| - 1];
      CamCount(init, k);
      if Truthy(o.native) && Truthy(o.ff) {
        IncCount(CamOf(init), (o.cam, Round(o.native.value), Round(o.ff.value)), k);
      }
    }
  }

  /**
   * The per-camera counts add up to the files with both lengths truthy,
   * which is never more than the histogram's total.
   */
  lemma {:induction false} CamTotal(obs: seq<Obs>)
    ensures Sum(CamOf(obs)) == CamTally(obs)
    ensures CamTally(obs) <= Tally(obs)
  {
    if obs != [] {
      CamTotal(obs[..|obs| - 1]);
    }
  }

  /** Python's `<` on the integer keys of `hist`. */
  predicate IntLess(a: int, b: int)
  {
    a < b
  }

  /** Python's `<` on the (camera, native, equivalent) keys of `camfx`: lexicographic. */
  predicate CamLess(a: CamKey, b: CamKey)
  {
    || StrLess(a.0, b.0)
    || (a.0 == b.0 && a.1 < b.1)
    || (a.0 == b.0 && a.1 == b.1 && a.2 < b.2)
  }

  lemma IntLessOrder()
    ensures StrictTotalOrder(IntLess)
  {
  }

  lemma CamLessOrder()
    ensures StrictTotalOrder(CamLess)
  {
    forall a: CamKey ensures !CamLess(a, a) {
      StrLessIrreflexive(a.0);
    }
    forall a: CamKey, b: CamKey, c: CamKey | CamLess(a, b) && CamLess(b, c)
      ensures CamLess(a, c)
    {
      if StrLess(a.0, b.0) && StrLess(b.0, c.0) {
        StrLessTransitive(a.0, b.0, c.0);
      }
    }
    forall a: CamKey, b: CamKey | a != b ensures CamLess(a, b) || CamLess(b, a) {
      if a.0 != b.0 {
        StrLessConnected(a.0, b.0);
      }
    }
  }

  /**
   * Example: a FUJIFILM X-T5 file with only a native "23 mm": the crop factor
   * gives 34.5 mm, which Python's `round` turns into 34 (halves go to even).
   */
  lemma FujifilmCropExample()
    ensures LinesParsable(["FUJIFILM", "X-T5", "23 mm"])
    ensures Observe(["FUJIFILM", "X-T5", "23 mm"]) == Obs("XT5", Some(23.0), Some(34.5))
    ensures Round(34.5) == 34
  {
    var lines := ["FUJIFILM", "X-T5", "23 mm"];
    var m := map["Make" := Some("FUJIFILM"), "Model" := Some("X-T5"), "FL" := Some("23 mm"),
                 "FL35" := None, "FL35Comp" := None];
    FujifilmMeta(lines, m);
    FujifilmParts(m);
    RoundHalfEven();
  }

  lemma FujifilmMeta(lines: seq<string>, m: Meta)
    requires lines == ["FUJIFILM", "X-T5", "23 mm"]
    requires m == map["Make" := Some("FUJIFILM"), "Model" := Some("X-T5"), "FL" := Some("23 mm"),
                      "FL35" := None, "FL35Comp" := None]
    ensures ExifVals(lines) == m
  {
    var meta := ExifVals(lines);
    assert meta[Keys[0]] == m["Make"] && meta[Keys[1]] == m["Model"] && meta[Keys[2]] == m["FL"];
    assert meta[Keys[3]] == m["FL35"] && meta[Keys[4]] == m["FL35Comp"];
    assert meta.Keys == m.Keys;
  }

  lemma FujifilmParts(m: Meta)
    requires m == map["Make" := Some("FUJIFILM"), "Model" := Some("X-T5"), "FL" := Some("23 mm"),
                      "FL35" := None, "FL35Comp" := None]
    ensures Parsable(Get(m, "FL")) && TagsParsable(m)
    ensures ToFloat(Get(m, "FL")) == Some(23.0)
    ensures Camera(m) == "XT5"
    ensures EquivDefined(m, Some(23.0)) && Equiv(m, Some(23.0)) == Some(34.5)
  {
    assert Get(m, "FL") == Some("23 mm");
    assert Get(m, "Make") == Some("FUJIFILM") && Get(m, "Model") == Some("X-T5");
    assert Get(m, "FL35") == None && Get(m, "FL35Comp") == None;
    assert "Make" in m && m["Make"] == Some("FUJIFILM");
    FujifilmNative();
    FujifilmCamera(m);
    FujifilmEquiv(m);
  }

  lemma FujifilmNative()
    ensures Parsable(Some("23 mm")) && ToFloat(Some("23 mm")) == Some(23.0)
  {
    assert Digits(23) == "23";
    assert "23 mm" == Digits(23) + " mm";
    ToFloatOfDigits(23, " mm");
  }

  lemma FujifilmCamera(m: Meta)
    requires Get(m, "Make") == Some("FUJIFILM") && Get(m, "Model") == Some("X-T5")
    ensures Camera(m) == "XT5"
  {
    UpperOfUpperCase("FUJIFILM");
    UpperOfUpperCase("X-T5");
    MissingCharNotContained("FUJIFILM", "APPLE", 0);
    assert StartsWith("FUJIFILM", "FUJIFILM");
    assert StartsWith("X-T5", "X-T5");
  }

  lemma FujifilmEquiv(m: Meta)
    requires "Make" in m && m["Make"] == Some("FUJIFILM")
    requires Get(m, "FL35") == None && Get(m, "FL35Comp") == None
    ensures TagsParsable(m) && EquivDefined(m, Some(23.0)) && Equiv(m, Some(23.0)) == Some(34.5)
  {
    UpperOfUpperCase("FUJIFILM");
    assert StartsWith("FUJIFILM", "FUJIFILM");
    assert IsFujifilm(m);
  }

  /**
   * Example: a truthy composite tag is returned before the plain 35 mm tag is
   * parsed, so an FL35 value that `float` rejects ("1.2.3") is never read.
   */
  lemma CompositeTagExample()
    ensures !Parsable(Some("1.2.3"))
    ensures LinesParsable(["FUJIFILM", "X-T5", "23 mm", "1.2.3", "35 mm"])
    ensures Observe(["FUJIFILM", "X-T5", "23 mm", "1.2.3", "35 mm"]) == Obs("XT5", Some(23.0), Some(35.0))
    ensures HistOf([Observe(["FUJIFILM", "X-T5", "23 mm", "1.2.3", "35 mm"])]) == [(35, 1)]
  {
    var lines := ["FUJIFILM", "X-T5", "23 mm", "1.2.3", "35 mm"];
    var m := map["Make" := Some("FUJIFILM"), "Model" := Some("X-T5"), "FL" := Some("23 mm"),
                 "FL35" := Some("1.2.3"), "FL35Comp" := Some("35 mm")];
    CompositeMeta(lines, m);
    CompositeParts(m);
    UnparsableRun();
    var o := Obs("XT5", Some(23.0), Some(35.0));
    assert Round(35.0) == 35;
    assert [o][..0] == [];
    assert HistOf([o]) == [(35, 1)];
  }

  lemma CompositeMeta(lines: seq<string>, m: Meta)
    requires lines == ["FUJIFILM", "X-T5", "23 mm", "1.2.3", "35 mm"]
    requires m == map["Make" := Some("FUJIFILM"), "Model" := Some("X-T5"), "FL" := Some("23 mm"),
                      "FL35" := Some("1.2.3"), "FL35Comp" := Some("35 mm")]
    ensures ExifVals(lines) == m
  {
    var meta := ExifVals(lines);
    assert meta[Keys[0]] == m["Make"] && meta[Keys[1]] == m["Model"] && meta[Keys[2]] == m["FL"];
    assert meta[Keys[3]] == m["FL35"] && meta[Keys[4]] == m["FL35Comp"];
    assert meta.Keys == m.Keys;
  }

  lemma CompositeParts(m: Meta)
    requires m == map["Make" := Some("FUJIFILM"), "Model" := Some("X-T5"), "FL" := Some("23 mm"),
                      "FL35" := Some("1.2.3"), "FL35Comp" := Some("35 mm")]
    ensures Parsable(Get(m, "FL")) && TagsParsable(m)
    ensures ToFloat(Get(m, "FL")) == Some(23.0)
    ensures Camera(m) == "XT5"
    ensures EquivDefined(m, Some(23.0)) && Equiv(m, Some(23.0)) == Some(35.0)
  {
    assert Get(m, "FL") == Some("23 mm") && Get(m, "FL35Comp") == Some("35 mm");
    assert Get(m, "Make") == Some("FUJIFILM") && Get(m, "Model") == Some("X-T5");
    FujifilmNative();
    ToFloatExample();
    FujifilmCamera(m);
  }

  /** "1.2.3" is a run of digits and dots with two dots, which `float` rejects. */
  lemma UnparsableRun()
    ensures !Parsable(Some("1.2.3"))
  {
    LeadingRunStops("1.2.3", []);
    assert "1.2.3" + [] == "1.2.3";
    assert DotCount("1.2.3") == 2;
  }

  /**
   * Example: three files, two of them at 24 mm and one at 48 mm, give a
   * histogram of exactly two rows, (24, 2) then (48, 1).
   */
  lemma HistogramExample()
    ensures SortByKey(HistOf([Obs("iPhone", Some(6.8), Some(24.0)),
                              Obs("iPhone", Some(6.8), Some(24.0)),
                              Obs("iPhone", Some(6.8), Some(48.0))]), IntLess)
            == [(24, 2), (48, 1)]
  {
    var a, b := Obs("iPhone", Some(6.8), Some(24.0)), Obs("iPhone", Some(6.8), Some(48.0));
    assert Round(24.0) == 24 && Round(48.0) == 48;
    assert [a, a, b][..2] == [a, a] && [a, a][..1] == [a] && [a][..0] == [];
    assert HistOf([a]) == [(24, 1)];
    assert HistOf([a, a]) == [(24, 2)];
    assert Inc([(24, 2)], 48) == [(24, 2)] + Inc([], 48);
    assert HistOf([a, a, b]) == [(24, 2), (48, 1)];
    assert SortByKey([(48, 1)], IntLess) == [(48, 1)];
    assert [(24, 2), (48, 1)][1..] == [(48, 1)];
  }

  /** How `main` ends. */
  datatype Outcome =
    | NoImages          // "No supported images found."
    | NoFocalData       // "No focal-length data found (tags missing)."
    | Report(histRows: seq<(int, nat)>, camRows: seq<(CamKey, nat)>)

  /** Reference definition of `main` on values: filter, fold both counters, check, sort. */
  function Analyze(entries: seq<Entry>): Outcome
    requires AllParsable(entries)
  {
    var files := Images(entries);
    if files == [] then NoImages
    else
      var obs := Observations(files);
      var hist := HistOf(obs);
      if hist == [] then NoFocalData
      else Report(SortByKey(hist, IntLess), SortByKey(CamOf(obs), CamLess))
  }

  /**
   * The histogram table: one row per key in strictly ascending key order,
   * each row's count the number of files whose equivalent length rounds to
   * its key (at least 1), and the counts adding up to the number of files
   * with a truthy equivalent length.
   */
  lemma HistRows(obs: seq<Obs>)
    ensures var rows := SortByKey(HistOf(obs), IntLess);
      && Ascending(rows, IntLess)
      && multiset(rows) == multiset(HistOf(obs))
      && (forall i :: 0 <= i < |rows| ==> rows[i].1 == KeyTally(obs, rows[i].0) >= 1)
      && Sum(rows) == Tally(obs)
  {
    var rows := SortByKey(HistOf(obs), IntLess);
    CountersValid(obs);
    HistTotal(obs);
    IntLessOrder();
    SortedItems(HistOf(obs), IntLess);
    forall i | 0 <= i < |rows| ensures rows[i].1 == KeyTally(obs, rows[i].0) {
      HistCount(obs, rows[i].0);
    }
  }

  /**
   * The per-camera table: one row per key in strictly ascending order,
   * each row's count the number of files with that label and those rounded
   * lengths (at least 1), and a total equal to the files with both lengths
   * truthy, never more than the histogram's total.
   */
  lemma CamRows(obs: seq<Obs>)
    ensures var cams := SortByKey(CamOf(obs), CamLess);
      && Ascending(cams, CamLess)
      && multiset(cams) == multiset(CamOf(obs))
      && (forall i :: 0 <= i < |cams| ==> cams[i].1 == CamKeyTally(obs, cams[i].0) >= 1)
      && Sum(cams) == CamTally(obs) <= Tally(obs)
  {
    var cams := SortByKey(CamOf(obs), CamLess);
    CountersValid(obs);
    CamTotal(obs);
    CamLessOrder();
    SortedItems(CamOf(obs), CamLess);
    forall i | 0 <= i < |cams| ensures cams[i].1 == CamKeyTally(obs, cams[i].0) {
      CamCount(obs, cams[i].0);
    }
  }

  /**
   * The two early exits of `main`: without an image file it stops first;
   * with image files but none with a truthy equivalent length it stops
   * second; otherwise it reports, with a non-empty histogram.
   */
  lemma AnalyzeExits(entries: seq<Entry>)
    requires AllParsable(entries)
    ensures Analyze(entries) == NoImages <==> Images(entries) == []
    ensures Analyze(entries) == NoFocalData <==>
      Images(entries) != [] && Tally(Observations(Images(entries))) == 0
    ensures Analyze(entries).Report? ==>
      && Analyze(entries).histRows == SortByKey(HistOf(Observations(Images(entries))), IntLess)
      && Analyze(entries).camRows == SortByKey(CamOf(Observations(Images(entries))), CamLess)
      && Tally(Observations(Images(entries))) > 0
  {
    var files := Images(entries);
    if files != [] {
      var obs := Observations(files);
      CountersValid(obs);
      HistTotal(obs);
      ValidEmptyIffZero(HistOf(obs));
    }
  }

  /** The loop's fold gains exactly the next file's observation. */
  lemma ObservationsStep(files: seq<Entry>, i: nat)
    requires FilesParsable(files) && i < |files|
    ensures FilesParsable(files[..i]) && FilesParsable(files[..i + 1])
    ensures Observations(files[..i + 1]) == Observations(files[..i]) + [Observe(files[i].lines)]
  {
    assert files[..i + 1][..i] == files[..i];
  }

  /**
   * `main` after the directory checks: the loop over the image files with
   * each file folded into the two counters, the two early exits, and the rows of
   * both tables in sorted order.
   */
  method Run(entries: seq<Entry>) returns (out: Outcome)
    requires AllParsable(entries)
    ensures out == Analyze(entries)
    ensures out == NoImages <==> Images(entries) == []
  {
    var files := Images(entries);
    if files == [] {
      return NoImages;
    }
    assert FilesParsable(files);
    var hist: Items<int> := [];
    var camfx: Items<CamKey> := [];
    for i := 0 to |files|
      invariant FilesParsable(files[..i])
      invariant hist == HistOf(Observations(files[..i]))
      invariant camfx == CamOf(Observations(files[..i]))
    {
      var meta := ExifVals(files[i].lines);
      var native := ToFloat(Get(meta, "FL"));
      ExifValsEquivDefined(files[i].lines);
      var ffMm := FfEquiv(meta, native);
      var cam := Camera(meta);
      ObservationsStep(files, i);
      assert Observe(files[i].lines) == Obs(cam, native, ffMm);
      if Truthy(ffMm) {
        hist := Inc(hist, Round(ffMm.value));
      }
      if Truthy(native) && Truthy(ffMm) {
        camfx := Inc(camfx, (cam, Round(native.value), Round(ffMm.value)));
      }
    }
    assert files[..|files|] == files;
    if hist == [] {
      return NoFocalData;
    }
    out := Report(SortByKey(hist, IntLess), SortByKey(camfx, CamLess));
  }
}

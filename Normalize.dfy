/**
 * The two decision chains applied to each photo's record: the camera label
 * (`camera`) and the 35 mm-equivalent focal length (`ff_equiv`).
 */
module Normalize {
  import opened Wrappers
  import opened Strings
  import opened Numbers
  import opened Metadata

  /** CROP_APSC, the APS-C crop factor applied to FUJIFILM cameras. */
  const CropApsc: real := 1.5

  /** The tags `ff_equiv` tries, in priority order. */
  const EquivTags: seq<string> := ["FL35Comp", "FL35"]

  /** `(meta.get("Make") or "").upper()`, the make as `camera` compares it. */
  function MakeUpper(meta: Meta): string
  {
    Upper(TextOf(Get(meta, "Make")))
  }

  /** `meta.get("Model") or ""`, the model as `camera` reads it. */
  function ModelText(meta: Meta): string
  {
    TextOf(Get(meta, "Model"))
  }

  /**
   * `camera(meta)`: "iPhone" for an APPLE make; for a FUJIFILM make "XT5"
   * when the model names an X-T5 and otherwise the raw model; for any other
   * make the model, else the upper-cased make, else "Unknown".  The label is
   * empty only when a FUJIFILM make comes with an empty model.
   */
  function Camera(meta: Meta): (name: string)
    ensures name in {"iPhone", "XT5", ModelText(meta), MakeUpper(meta), "Unknown"}
    ensures name == "" ==>
      !Contains(MakeUpper(meta), "APPLE") && Contains(MakeUpper(meta), "FUJIFILM") && ModelText(meta) == ""
  {
    var make := MakeUpper(meta);
    var model := ModelText(meta);
    if Contains(make, "APPLE") then "iPhone"
    else if Contains(make, "FUJIFILM") then (if Contains(Upper(model), "X-T5") then "XT5" else model)
    else if model != "" then model
    else if make != "" then make
    else "Unknown"
  }

  /**
   * For a FUJIFILM make the X-T5 test ignores the model's letter case: any
   * model whose upper-cased form names an X-T5 gives "XT5", and so does its
   * lower-cased spelling.
   */
  lemma CameraModelCaseIgnored(meta: Meta, model: string)
    requires !Contains(MakeUpper(meta), "APPLE") && Contains(MakeUpper(meta), "FUJIFILM")
    requires Contains(Upper(model), "X-T5")
    ensures Camera(meta["Model" := Some(model)]) == "XT5"
    ensures Camera(meta["Model" := Some(Lower(model))]) == "XT5"
  {
    assert Get(meta["Model" := Some(model)], "Make") == Get(meta, "Make");
    assert Get(meta["Model" := Some(Lower(model))], "Make") == Get(meta, "Make");
    UpperOfLower(model);
  }

  /**
   * A FUJIFILM make whose model does not name an X-T5 reports the model text
   * exactly as stored, the empty string included: it never falls back on the
   * make or on "Unknown".
   */
  lemma CameraFujifilmRawModel(meta: Meta)
    requires !Contains(MakeUpper(meta), "APPLE") && Contains(MakeUpper(meta), "FUJIFILM")
    requires !Contains(Upper(ModelText(meta)), "X-T5")
    ensures Camera(meta) == ModelText(meta)
  {
  }

  /**
   * For a make with neither marker, a non-empty model wins over the make:
   * whatever such make is stored, the label is the model.
   */
  lemma CameraModelBeatsMake(meta: Meta, make: string)
    requires !Contains(Upper(make), "APPLE") && !Contains(Upper(make), "FUJIFILM")
    requires ModelText(meta) != ""
    ensures Camera(meta["Make" := Some(make)]) == ModelText(meta)
  {
    var m2 := meta["Make" := Some(make)];
    assert Get(m2, "Model") == Get(meta, "Model");
    assert MakeUpper(m2) == Upper(make);
  }

  /** For a make with neither marker and an empty model, the upper-cased make is the label. */
  lemma CameraMakeFallback(meta: Meta)
    requires !Contains(MakeUpper(meta), "APPLE") && !Contains(MakeUpper(meta), "FUJIFILM")
    requires ModelText(meta) == "" && MakeUpper(meta) != ""
    ensures Camera(meta) == MakeUpper(meta)
  {
  }

  /** An APPLE make gives "iPhone" whatever the model says. */
  lemma CameraAppleIgnoresModel(meta: Meta, model: Option<string>)
    requires Contains(MakeUpper(meta), "APPLE")
    ensures Camera(meta["Model" := model]) == "iPhone"
  {
    assert Get(meta["Model" := model], "Make") == Get(meta, "Make");
  }

  /**
   * Marker matching ignores the case of the make: replacing the make by its
   * upper-cased form never changes the label.
   */
  lemma CameraMakeCaseInsensitive(meta: Meta)
    requires "Make" in meta && meta["Make"].Some?
    ensures Camera(meta["Make" := Some(Upper(meta["Make"].value))]) == Camera(meta)
  {
    var m2 := meta["Make" := Some(Upper(meta["Make"].value))];
    UpperIdempotent(meta["Make"].value);
    assert MakeUpper(m2) == MakeUpper(meta);
    assert ModelText(m2) == ModelText(meta);
  }

  /** A string that lacks one of the characters of `sub` does not contain `sub`. */
  lemma MissingCharNotContained(s: string, sub: string, k: nat)
    requires k < |sub|
    requires forall i :: 0 <= i < |s| ==> s[i] != sub[k]
    ensures !Contains(s, sub)
  {
    ContainsIff(s, sub);
    forall i: nat ensures !OccursAt(s, sub, i) {
      if i + |sub| <= |s| {
        assert s[i..i + |sub|][k] == s[i + k];
      }
    }
  }

  /** A string with no lower-case ASCII letter is its own upper-case form. */
  lemma UpperOfUpperCase(s: string)
    requires forall i :: 0 <= i < |s| ==> !('a' <= s[i] <= 'z')
    ensures Upper(s) == s
  {
  }

  /** Example: an "APPLE INC." make gives "iPhone". */
  lemma CameraExampleApple()
    ensures Camera(map["Make" := Some("APPLE INC."), "Model" := Some("iPhone 15")]) == "iPhone"
  {
    UpperOfUpperCase("APPLE INC.");
    assert StartsWith("APPLE", "APPLE");
    ContainsInfix("", "APPLE", " INC.", "APPLE");
    assert "" + "APPLE" + " INC." == "APPLE INC.";
  }

  /** Example: a FUJIFILM make with model "X-T5 " gives "XT5". */
  lemma CameraExampleXT5()
    ensures Camera(map["Make" := Some("FUJIFILM"), "Model" := Some("X-T5 ")]) == "XT5"
  {
    UpperOfUpperCase("FUJIFILM");
    MissingCharNotContained("FUJIFILM", "APPLE", 0);
    assert StartsWith("FUJIFILM", "FUJIFILM");
    UpperOfUpperCase("X-T5 ");
    assert StartsWith("X-T5 ", "X-T5");
  }

  /** Example: a FUJIFILM make with the lower-case model "x-t5" still gives "XT5". */
  lemma CameraExampleLowerXT5()
    ensures Camera(map["Make" := Some("FUJIFILM"), "Model" := Some("x-t5")]) == "XT5"
  {
    UpperOfUpperCase("FUJIFILM");
    MissingCharNotContained("FUJIFILM", "APPLE", 0);
    assert StartsWith("FUJIFILM", "FUJIFILM");
    assert Upper("x-t5") == "X-T5";
    assert StartsWith("X-T5", "X-T5");
  }

  /** Example: a FUJIFILM make with model "X100V" gives the raw model. */
  lemma CameraExampleX100V()
    ensures Camera(map["Make" := Some("FUJIFILM"), "Model" := Some("X100V")]) == "X100V"
  {
    UpperOfUpperCase("FUJIFILM");
    MissingCharNotContained("FUJIFILM", "APPLE", 0);
    assert StartsWith("FUJIFILM", "FUJIFILM");
    UpperOfUpperCase("X100V");
    MissingCharNotContained("X100V", "X-T5", 1);
  }

  /** Example: an empty make and model, or none at all, give "Unknown". */
  lemma CameraExampleUnknown()
    ensures Camera(map["Make" := Some(""), "Model" := Some("")]) == "Unknown"
    ensures Camera(map[]) == "Unknown"
  {
    MissingCharNotContained("", "APPLE", 0);
    MissingCharNotContained("", "FUJIFILM", 0);
  }

  /** Example: make "Canon" with model "EOS R5" gives the model, not the make. */
  lemma CameraExampleCanon()
    ensures Camera(map["Make" := Some("Canon"), "Model" := Some("EOS R5")]) == "EOS R5"
  {
    assert Upper("Canon") == "CANON";
    MissingCharNotContained("CANON", "APPLE", 1);
    MissingCharNotContained("CANON", "FUJIFILM", 0);
  }

  /** Example: make "Canon" with an empty model gives the upper-cased make "CANON". */
  lemma CameraExampleCanonNoModel()
    ensures Camera(map["Make" := Some("Canon"), "Model" := Some("")]) == "CANON"
  {
    assert Upper("Canon") == "CANON";
    MissingCharNotContained("CANON", "APPLE", 1);
    MissingCharNotContained("CANON", "FUJIFILM", 0);
  }

  /** Example: make "FUJIFILM" with an empty model gives the empty label. */
  lemma CameraExampleFujifilmNoModel()
    ensures Camera(map["Make" := Some("FUJIFILM"), "Model" := Some("")]) == ""
  {
    UpperOfUpperCase("FUJIFILM");
    MissingCharNotContained("FUJIFILM", "APPLE", 0);
    assert StartsWith("FUJIFILM", "FUJIFILM");
    MissingCharNotContained("", "X-T5", 0);
  }

  /** `if mm:`, the truthiness test: a value counts only when present and non-zero. */
  predicate Truthy(x: Option<real>)
  {
    x.Some? && x.value != 0.0
  }

  /**
   * None of the values `ff_equiv` parses makes `float` raise.  The plain
   * 35 mm tag is parsed only when the composite tag is not truthy, since the
   * loop returns at the first truthy tag.
   */
  predicate TagsParsable(meta: Meta)
  {
    && Parsable(Get(meta, "FL35Comp"))
    && (Truthy(ToFloat(Get(meta, "FL35Comp"))) || Parsable(Get(meta, "FL35")))
  }

  /**
   * `ff_equiv` returns without raising: its crop-factor fallback calls
   * `.upper()` on `meta.get("Make", "")`, which fails on a stored None, and
   * that fallback is reached only when no tag is usable and the native length
   * is known.
   */
  predicate EquivDefined(meta: Meta, native: Option<real>)
    requires TagsParsable(meta)
  {
    || Truthy(ToFloat(Get(meta, "FL35Comp")))
    || Truthy(ToFloat(Get(meta, "FL35")))
    || native.None?
    || "Make" !in meta
    || meta["Make"].Some?
  }

  /** `meta.get("Make", "")` where it is a string. */
  function MakeOrEmpty(meta: Meta): string
  {
    if "Make" in meta && meta["Make"].Some? then meta["Make"].value else ""
  }

  /** Whether the crop factor applies: the make mentions FUJIFILM in any case. */
  predicate IsFujifilm(meta: Meta)
  {
    Contains(Upper(MakeOrEmpty(meta)), "FUJIFILM")
  }

  /**
   * The 35 mm-equivalent focal length as an ordered chain of sources: the
   * composite tag, then the plain 35 mm tag (each only when truthy), then
   * the native length scaled by the crop factor for FUJIFILM and unscaled
   * otherwise, and no value without a native length.
   */
  function Equiv(meta: Meta, native: Option<real>): (r: Option<real>)
    requires TagsParsable(meta) && EquivDefined(meta, native)
    ensures native.Some? && native.value >= 0.0 && r.Some? ==> r.value >= 0.0
    ensures r.None? ==> native.None?
  {
    var comp := ToFloat(Get(meta, "FL35Comp"));
    if Truthy(comp) then comp
    else
      var fl35 := ToFloat(Get(meta, "FL35"));
      if Truthy(fl35) then fl35
      else if native.None? then None
      else if IsFujifilm(meta) then Some(native.value * CropApsc)
      else native
  }

  /**
   * `ff_equiv(meta, native)`: loops over the two tags and returns the first
   * truthy one; otherwise falls back on the native length.
   */
  method FfEquiv(meta: Meta, native: Option<real>) returns (r: Option<real>)
    requires TagsParsable(meta) && EquivDefined(meta, native)
    ensures Truthy(ToFloat(Get(meta, "FL35Comp"))) ==> r == ToFloat(Get(meta, "FL35Comp"))
    ensures !Truthy(ToFloat(Get(meta, "FL35Comp"))) && Truthy(ToFloat(Get(meta, "FL35"))) ==>
      r == ToFloat(Get(meta, "FL35"))
    ensures !Truthy(ToFloat(Get(meta, "FL35Comp"))) && !Truthy(ToFloat(Get(meta, "FL35"))) ==>
      r == if native.None? then None
           else Some(native.value * (if IsFujifilm(meta) then CropApsc else 1.0))
    ensures r == Equiv(meta, native)
  {
    assert EquivTags[0] == "FL35Comp" && EquivTags[1] == "FL35";
    for i := 0 to |EquivTags|
      invariant i >= 1 ==> !Truthy(ToFloat(Get(meta, "FL35Comp")))
      invariant i >= 2 ==> !Truthy(ToFloat(Get(meta, "FL35Comp"))) && !Truthy(ToFloat(Get(meta, "FL35")))
    {
      assert i == 0 ==> EquivTags[i] == "FL35Comp";
      assert i == 1 ==> EquivTags[i] == "FL35";
      var mm := ToFloat(Get(meta, EquivTags[i]));
      if Truthy(mm) {
        return mm;
      }
    }
    if native.None? {
      return None;
    }
    var make := MakeOrEmpty(meta);
    if Contains(Upper(make), "FUJIFILM") {
      r := Some(native.value * CropApsc);
    } else {
      r := native;
      assert r == Some(native.value * 1.0);
    }
  }

  /** A tag that parses to zero is skipped exactly as if it were missing. */
  lemma EquivSkipsZeroTag(meta: Meta, native: Option<real>, tag: string)
    requires tag in EquivTags
    requires TagsParsable(meta) && EquivDefined(meta, native)
    requires Parsable(Get(meta, tag)) && ToFloat(Get(meta, tag)) == Some(0.0)
    ensures TagsParsable(meta[tag := None]) && EquivDefined(meta[tag := None], native)
    ensures Equiv(meta[tag := None], native) == Equiv(meta, native)
  {
    var m2 := meta[tag := None];
    assert Get(m2, "Make") == Get(meta, "Make");
    if tag == "FL35Comp" {
      assert Get(m2, "FL35") == Get(meta, "FL35");
    } else {
      assert Get(m2, "FL35Comp") == Get(meta, "FL35Comp");
    }
  }

  /**
   * A record built by `exif_vals` never makes `ff_equiv` raise on the make:
   * a record without a make has no native focal length either.
   */
  lemma ExifValsEquivDefined(lines: seq<string>)
    requires TagsParsable(ExifVals(lines)) && Parsable(Get(ExifVals(lines), "FL"))
    ensures EquivDefined(ExifVals(lines), ToFloat(Get(ExifVals(lines), "FL")))
  {
    var meta := ExifVals(lines);
    if meta["Make"].None? {
      ExifValsPositional(lines, 0, 2);
      assert Keys[2] == "FL";
    }
  }
}

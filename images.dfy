/** `image_colormaps` and `write_image` (neural_canvas/utils/utils.py):
    which colour variants of a frame are produced, and which files are
    written under which names. The encoders themselves are not
    interpreted. */
module Images {
  import opened Python
  import opened Text
  import opened Storage

  /** A Python dict with string keys: insertion order plus contents. */
  datatype Dict<V> = Dict(order: seq<string>, entries: map<string, V>) {
    ghost predicate Valid() {
      && (forall i, j :: 0 <= i < j < |order| ==> order[i] != order[j])
      && (forall k :: k in entries <==> k in order)
    }

    /** `d[k] = v`: a new key goes to the end, an existing key keeps its place. */
    function Put(k: string, v: V): Dict<V> {
      if k in entries then Dict(order, entries[k := v]) else Dict(order + [k], entries[k := v])
    }
  }

  /** `{c.lower(): None for c in names}`. */
  function LowerKeys(names: seq<string>): (d: Dict<Option<Pixels>>)
    ensures forall k :: k in d.entries <==> k in d.order
    ensures forall k :: k in d.entries ==> d.entries[k] == None
    decreases |names|
  {
    if names == [] then Dict([], map[])
    else LowerKeys(names[..|names| - 1]).Put(Lower(names[|names| - 1]), None)
  }

  /** The lower-cased names, as a set. */
  function LoweredSet(names: seq<string>): set<string> {
    set c | c in names :: Lower(c)
  }

  lemma {:induction false} LowerKeysHoldsLoweredNames(names: seq<string>)
    ensures LowerKeys(names).entries.Keys == LoweredSet(names)
    decreases |names|
  {
    if names != [] {
      var init := names[..|names| - 1];
      LowerKeysHoldsLoweredNames(init);
      assert names == init + [names[|names| - 1]];
      assert LoweredSet(names) == LoweredSet(init) + {Lower(names[|names| - 1])};
    }
  }

  /** The colour variants `image_colormaps` knows how to produce. */
  const KnownColormaps: set<string> := {"rgb", "hsv", "gray", "lab", "hls", "luv"}

  function LastDim(img: Frame): nat
    requires |img.shape| > 0
  {
    img.shape[|img.shape| - 1]
  }

  /** The key `image_colormaps` adds whatever was asked: 'rgb' for a
      three-channel frame, 'gray' for any other. */
  function AddedKey(img: Frame): string
    requires |img.shape| > 0
  {
    if LastDim(img) == 3 then "rgb" else "gray"
  }

  /** The conversion from an RGB image that yields colormap k. */
  function FromRgb(k: string): Conversion
    requires k in KnownColormaps - {"rgb"}
  {
    if k == "hsv" then RgbToHsv
    else if k == "gray" then RgbToGray
    else if k == "lab" then RgbToLab
    else if k == "hls" then RgbToHls
    else RgbToLuv
  }

  /** The value `image_colormaps` leaves under key k: the input frame
      under the added key, `None` for an unknown name, otherwise the frame
      converted from RGB (a frame without three channels is first converted
      from grey to RGB). */
  function ValueFor(img: Frame, k: string): Option<Pixels>
    requires |img.shape| > 0
  {
    if k == AddedKey(img) then Some(Plain(img))
    else if k !in KnownColormaps then None
    else if LastDim(img) == 3 then Some(Converted(FromRgb(k), Plain(img)))
    else if k == "rgb" then Some(Converted(GrayToRgb, Plain(img)))
    else Some(Converted(FromRgb(k), Converted(GrayToRgb, Plain(img))))
  }

  /** The dict `image_colormaps(img, colormaps)` returns: the requested
      names lower-cased, then the added key, each with its value. */
  function Colormaps(img: Frame, names: seq<string>): (d: Dict<Option<Pixels>>)
    requires |img.shape| > 0
  {
    var keys := LowerKeys(names).Put(AddedKey(img), Some(Plain(img)));
    Dict(keys.order, map k | k in keys.entries :: ValueFor(img, k))
  }

  /** d has the keys and order of `spec` and agrees with it outside `pending`. */
  ghost predicate AgreesExcept(d: Dict<Option<Pixels>>, spec: Dict<Option<Pixels>>, pending: set<string>) {
    && d.order == spec.order
    && d.entries.Keys == spec.entries.Keys
    && forall k :: k in d.entries && k !in pending ==> d.entries[k] == spec.entries[k]
  }

  /** One conditional assignment `if k in d: d[k] = v` settles key k. */
  lemma SettleKey(img: Frame, names: seq<string>, d: Dict<Option<Pixels>>, pending: set<string>, k: string, v: Pixels)
    requires |img.shape| > 0
    requires AgreesExcept(d, Colormaps(img, names), pending)
    requires ValueFor(img, k) == Some(v)
    ensures AgreesExcept(if k in d.entries then d.Put(k, Some(v)) else d, Colormaps(img, names), pending - {k})
  {
  }

  /** Right after the added key is stored, only the known colormaps other
      than the added key still differ from the result. */
  lemma AfterAddedKey(img: Frame, names: seq<string>)
    requires |img.shape| > 0
    ensures AgreesExcept(LowerKeys(names).Put(AddedKey(img), Some(Plain(img))), Colormaps(img, names),
                         KnownColormaps - {AddedKey(img)})
  {
  }

  /** The number of channels `cv2.cvtColor` sees in a numpy array: one for
      a 1-d or 2-d array, the last dimension of a 3-d one. An array of more
      than three dimensions, or one with an empty dimension, is refused
      whatever the conversion. */
  function CvChannels(img: Frame): Option<nat> {
    if |img.shape| == 0 || |img.shape| > 3 || 0 in img.shape then None
    else if |img.shape| == 3 then Some(img.shape[2])
    else Some(1)
  }

  /** The colormaps that the three-channel branch converts to. */
  const ConvertedFromRgb: set<string> := {"hsv", "gray", "lab", "hls", "luv"}

  /** The `cv2.cvtColor` failure that stops `image_colormaps`, if any. The
      three-channel branch converts only when a colormap other than 'rgb'
      is requested, and RGB conversions need three channels; the other
      branch always converts the frame from grey to RGB, which needs one. */
  function ColormapsError(img: Frame, names: seq<string>): Option<PyError>
    requires |img.shape| > 0
  {
    if LastDim(img) == 3 then
      if LoweredSet(names) * ConvertedFromRgb != {} && CvChannels(img) != Some(3)
      then Some(CvtColorError(img.shape)) else None
    else if CvChannels(img) != Some(1) then Some(CvtColorError(img.shape))
    else None
  }

  /** `image_colormaps(img, colormaps)`, filling the dict in place as the
      source does: the comprehension, the added key, then one conditional
      assignment per known colormap. A conversion `cv2.cvtColor` refuses
      raises before the dict is returned. */
  method ImageColormaps(img: Frame, names: seq<string>) returns (r: Result<Dict<Option<Pixels>>, PyError>)
    requires |img.shape| > 0
    ensures r.Err? <==> ColormapsError(img, names).Some?
    ensures r.Err? ==> r.error == ColormapsError(img, names).value
    ensures r.Ok? ==> r.value == Colormaps(img, names)
  {
    var d := LowerKeys(names);
    if LastDim(img) == 3 {
      r := FillFromRgb(img, names, d);
    } else {
      r := FillFromGray(img, names, d);
    }
  }

  /** `if k in d: d[k] = v`: a conditional assignment to a key the dict
      may hold. */
  function SetIfPresent(d: Dict<Option<Pixels>>, k: string, v: Pixels): (r: Dict<Option<Pixels>>)
    ensures r.order == d.order && r.entries.Keys == d.entries.Keys
    ensures k in d.entries ==> r.entries[k] == Some(v)
  {
    if k in d.entries then d.Put(k, Some(v)) else d
  }

  /** The three-channel branch of `image_colormaps`. Each requested
      conversion needs a frame `cv2.cvtColor` reads as three channels. */
  method FillFromRgb(img: Frame, names: seq<string>, d0: Dict<Option<Pixels>>)
    returns (r: Result<Dict<Option<Pixels>>, PyError>)
    requires |img.shape| > 0 && LastDim(img) == 3
    requires d0 == LowerKeys(names)
    ensures r.Err? <==> ColormapsError(img, names).Some?
    ensures r.Err? ==> r.error == ColormapsError(img, names).value
    ensures r.Ok? ==> r.value == Colormaps(img, names)
  {
    LowerKeysHoldsLoweredNames(names);
    var src := Plain(img);
    var d := d0.Put("rgb", Some(src));
    r := ConvertFromRgb(img, d, "hsv", RgbToHsv);
    if r.Err? { RgbRaises(img, names, "hsv"); return; }
    r := ConvertFromRgb(img, r.value, "gray", RgbToGray);
    if r.Err? { RgbRaises(img, names, "gray"); return; }
    r := ConvertFromRgb(img, r.value, "lab", RgbToLab);
    if r.Err? { RgbRaises(img, names, "lab"); return; }
    r := ConvertFromRgb(img, r.value, "hls", RgbToHls);
    if r.Err? { RgbRaises(img, names, "hls"); return; }
    r := ConvertFromRgb(img, r.value, "luv", RgbToLuv);
    if r.Err? { RgbRaises(img, names, "luv"); return; }
    RgbFilled(img, names);
    RgbNotRaising(img, names);
  }

  /** One conditional conversion of the three-channel branch,
      `if k in colormaps: colormaps[k] = cv2.cvtColor(img, conversion)`:
      it raises when the dict holds k and the frame is not read as three
      channels. */
  method ConvertFromRgb(img: Frame, d: Dict<Option<Pixels>>, k: string, conversion: Conversion)
    returns (r: Result<Dict<Option<Pixels>>, PyError>)
    ensures r.Err? <==> k in d.entries && CvChannels(img) != Some(3)
    ensures r.Err? ==> r.error == CvtColorError(img.shape)
    ensures r.Ok? ==> r.value == SetIfPresent(d, k, Converted(conversion, Plain(img)))
  {
    if k in d.entries {
      if CvChannels(img) != Some(3) {
        return Err(CvtColorError(img.shape));
      }
      return Ok(d.Put(k, Some(Converted(conversion, Plain(img)))));
    }
    return Ok(d);
  }

  /** A requested conversion of a frame not read as three channels is the
      error `image_colormaps` raises. */
  lemma RgbRaises(img: Frame, names: seq<string>, k: string)
    requires |img.shape| > 0 && LastDim(img) == 3
    requires k in ConvertedFromRgb && k in LoweredSet(names) && CvChannels(img) != Some(3)
    ensures ColormapsError(img, names) == Some(CvtColorError(img.shape))
  {
    assert k in LoweredSet(names) * ConvertedFromRgb;
  }

  /** Unless the frame is read as three channels, no conversion may be
      requested for `image_colormaps` not to raise. */
  lemma RgbNotRaising(img: Frame, names: seq<string>)
    requires |img.shape| > 0 && LastDim(img) == 3
    requires CvChannels(img) != Some(3) ==>
               "hsv" !in LoweredSet(names) && "gray" !in LoweredSet(names) && "lab" !in LoweredSet(names)
               && "hls" !in LoweredSet(names) && "luv" !in LoweredSet(names)
    ensures ColormapsError(img, names).None?
  {
  }

  /** The five conditional assignments of the three-channel branch turn the
      comprehension, with 'rgb' stored, into `Colormaps`. */
  lemma RgbFilled(img: Frame, names: seq<string>)
    requires |img.shape| > 0 && LastDim(img) == 3
    ensures var src := Plain(img);
            var d := LowerKeys(names).Put("rgb", Some(src));
            SetIfPresent(SetIfPresent(SetIfPresent(SetIfPresent(SetIfPresent(d,
              "hsv", Converted(RgbToHsv, src)), "gray", Converted(RgbToGray, src)), "lab", Converted(RgbToLab, src)),
              "hls", Converted(RgbToHls, src)), "luv", Converted(RgbToLuv, src))
            == Colormaps(img, names)
  {
    AfterAddedKey(img, names);
    var src := Plain(img);
    var d := LowerKeys(names).Put("rgb", Some(src));
    SettleKey(img, names, d, {"hsv", "gray", "lab", "hls", "luv"}, "hsv", Converted(RgbToHsv, src));
    d := SetIfPresent(d, "hsv", Converted(RgbToHsv, src));
    SettleKey(img, names, d, {"gray", "lab", "hls", "luv"}, "gray", Converted(RgbToGray, src));
    d := SetIfPresent(d, "gray", Converted(RgbToGray, src));
    SettleKey(img, names, d, {"lab", "hls", "luv"}, "lab", Converted(RgbToLab, src));
    d := SetIfPresent(d, "lab", Converted(RgbToLab, src));
    SettleKey(img, names, d, {"hls", "luv"}, "hls", Converted(RgbToHls, src));
    d := SetIfPresent(d, "hls", Converted(RgbToHls, src));
    SettleKey(img, names, d, {"luv"}, "luv", Converted(RgbToLuv, src));
    d := SetIfPresent(d, "luv", Converted(RgbToLuv, src));
    SettledDict(d, Colormaps(img, names));
  }

  /** The branch of `image_colormaps` for a frame without three channels:
      the frame, which `cv2.cvtColor` must read as one channel, is
      converted to RGB first; it is the 'gray' entry and the other
      variants are converted from its RGB version. */
  method FillFromGray(img: Frame, names: seq<string>, d0: Dict<Option<Pixels>>)
    returns (r: Result<Dict<Option<Pixels>>, PyError>)
    requires |img.shape| > 0 && LastDim(img) != 3
    requires d0 == LowerKeys(names)
    ensures r.Err? <==> ColormapsError(img, names).Some?
    ensures r.Err? ==> r.error == ColormapsError(img, names).value
    ensures r.Ok? ==> r.value == Colormaps(img, names)
  {
    if CvChannels(img) != Some(1) {
      return Err(CvtColorError(img.shape));
    }
    var img2 := Converted(GrayToRgb, Plain(img));
    var d := d0.Put("gray", Some(Plain(img)));
    d := SetIfPresent(d, "rgb", img2);
    d := SetIfPresent(d, "hsv", Converted(RgbToHsv, img2));
    d := SetIfPresent(d, "lab", Converted(RgbToLab, img2));
    d := SetIfPresent(d, "hls", Converted(RgbToHls, img2));
    d := SetIfPresent(d, "luv", Converted(RgbToLuv, img2));
    GrayFilled(img, names);
    return Ok(d);
  }

  /** The five conditional assignments of the grey branch turn the
      comprehension, with 'gray' stored, into `Colormaps`. */
  lemma GrayFilled(img: Frame, names: seq<string>)
    requires |img.shape| > 0 && LastDim(img) != 3
    ensures var img2 := Converted(GrayToRgb, Plain(img));
            var d := LowerKeys(names).Put("gray", Some(Plain(img)));
            SetIfPresent(SetIfPresent(SetIfPresent(SetIfPresent(SetIfPresent(d,
              "rgb", img2), "hsv", Converted(RgbToHsv, img2)), "lab", Converted(RgbToLab, img2)),
              "hls", Converted(RgbToHls, img2)), "luv", Converted(RgbToLuv, img2))
            == Colormaps(img, names)
  {
    AfterAddedKey(img, names);
    var img2 := Converted(GrayToRgb, Plain(img));
    var d := LowerKeys(names).Put("gray", Some(Plain(img)));
    SettleKey(img, names, d, {"rgb", "hsv", "lab", "hls", "luv"}, "rgb", img2);
    d := SetIfPresent(d, "rgb", img2);
    SettleKey(img, names, d, {"hsv", "lab", "hls", "luv"}, "hsv", Converted(RgbToHsv, img2));
    d := SetIfPresent(d, "hsv", Converted(RgbToHsv, img2));
    SettleKey(img, names, d, {"lab", "hls", "luv"}, "lab", Converted(RgbToLab, img2));
    d := SetIfPresent(d, "lab", Converted(RgbToLab, img2));
    SettleKey(img, names, d, {"hls", "luv"}, "hls", Converted(RgbToHls, img2));
    d := SetIfPresent(d, "hls", Converted(RgbToHls, img2));
    SettleKey(img, names, d, {"luv"}, "luv", Converted(RgbToLuv, img2));
    d := SetIfPresent(d, "luv", Converted(RgbToLuv, img2));
    SettledDict(d, Colormaps(img, names));
  }

  lemma SettledDict(d: Dict<Option<Pixels>>, spec: Dict<Option<Pixels>>)
    requires AgreesExcept(d, spec, {})
    ensures d == spec
  {
    assert d.entries == spec.entries;
  }

  /** The keys of `image_colormaps` are exactly the lower-cased requested
      names plus the added key, in first-request order with the added key
      last unless it was requested. */
  lemma ImageColormapsKeys(img: Frame, names: seq<string>)
    requires |img.shape| > 0
    ensures Colormaps(img, names).entries.Keys == LoweredSet(names) + {AddedKey(img)}
    ensures forall k :: k in Colormaps(img, names).entries <==> k in Colormaps(img, names).order
    ensures var lowered := LowerKeys(names).order;
            Colormaps(img, names).order
            == if AddedKey(img) in lowered then lowered else lowered + [AddedKey(img)]
  {
    LowerKeysHoldsLoweredNames(names);
  }

  /** The added key maps to the input frame, unchanged. */
  lemma ImageColormapsKeepsInput(img: Frame, names: seq<string>)
    requires |img.shape| > 0
    ensures AddedKey(img) in Colormaps(img, names).entries
    ensures Colormaps(img, names).entries[AddedKey(img)] == Some(Plain(img))
  {
  }

  /** A requested name is `None` in the result exactly when it is not a
      known colormap. */
  lemma ImageColormapsUnknownStayNone(img: Frame, names: seq<string>, k: string)
    requires |img.shape| > 0
    requires k in LoweredSet(names)
    ensures k in Colormaps(img, names).entries
    ensures Colormaps(img, names).entries[k] == None <==> k !in KnownColormaps
  {
    LowerKeysHoldsLoweredNames(names);
    assert "rgb" in KnownColormaps && "gray" in KnownColormaps;
  }

  const RasterSuffixes: seq<string> := ["jpg", "png", "bmp", "jpeg"]
  const Suffixes: seq<string> := RasterSuffixes + ["tif"]

  /** The files one `write_image` call writes, in order, whether it warned
      that the TIFF carries no metadata, and the exception that stopped it. */
  datatype WriteReport = WriteReport(writes: seq<(string, FileData)>, warned: bool, error: Option<PyError>)

  function ColormapPath(path: string, cmap: string, suffix: string): string {
    path + "_" + cmap + "." + suffix
  }

  /** The write loop over the colormap dict: `cv2.imwrite` of a `None`
      entry raises, and the files written before it stay written. */
  function WriteEntries(path: string, suffix: string, order: seq<string>, entries: map<string, Option<Pixels>>): (r: WriteReport)
    requires forall k :: k in order ==> k in entries
    ensures !r.warned
    ensures |r.writes| <= |order|
    ensures forall j :: 0 <= j < |r.writes| ==>
              r.writes[j].0 == ColormapPath(path, order[j], suffix)
              && entries[order[j]].Some?
              && r.writes[j].1 == RasterFile(entries[order[j]].value)
    ensures r.error.None? <==> (forall k :: k in order ==> entries[k].Some?)
    ensures r.error.None? ==> |r.writes| == |order|
    ensures r.error.Some? ==>
              && |r.writes| < |order|
              && entries[order[|r.writes|]] == None
              && r.error == Some(ImwriteError(ColormapPath(path, order[|r.writes|], suffix)))
    decreases |order|
  {
    if order == [] then WriteReport([], false, None)
    else
      var name := ColormapPath(path, order[0], suffix);
      match entries[order[0]]
      case None => WriteReport([], false, Some(ImwriteError(name)))
      case Some(px) =>
        var rest := WriteEntries(path, suffix, order[1..], entries);
        assert forall k :: k in order ==> k == order[0] || k in order[1..];
        WriteReport([(name, RasterFile(px))] + rest.writes, false, rest.error)
  }

  /** `write_image(path, img, suffix, metadata, colormaps)`. */
  function WriteImage(path: string, img: Frame, suffix: string, metadata: Option<Block>,
                      colormaps: Option<seq<string>>): (r: WriteReport)
  {
    if suffix !in Suffixes then
      WriteReport([], false, Some(AssertionError("Invalid suffix for file, got " + suffix)))
    else if suffix in RasterSuffixes then
      if colormaps.Some? then
        if |img.shape| == 0 then WriteReport([], false, Some(IndexError(-1)))  // `img.shape[-1]` of a 0-d array
        else if ColormapsError(img, colormaps.value).Some? then
          WriteReport([], false, ColormapsError(img, colormaps.value))
        else
          var d := Colormaps(img, colormaps.value);
          WriteEntries(path, suffix, d.order, d.entries)
      else
        WriteReport([(path + "." + suffix, RasterFile(Plain(img)))], false, None)
    else
      WriteReport([(path + ".tif", TiffFile(img, metadata))], metadata.None?, None)
  }

  /** A suffix outside jpg, png, bmp, jpeg, tif is rejected before anything
      is written; every accepted suffix writes at least one file unless a
      colormap entry is `None`. */
  lemma WriteImageSuffixCheck(path: string, img: Frame, suffix: string, metadata: Option<Block>,
                              colormaps: Option<seq<string>>)
    ensures var r := WriteImage(path, img, suffix, metadata, colormaps);
            (r.error.Some? && r.error.value.AssertionError?) <==> suffix !in ["jpg", "png", "bmp", "jpeg", "tif"]
    ensures suffix !in ["jpg", "png", "bmp", "jpeg", "tif"] ==> WriteImage(path, img, suffix, metadata, colormaps).writes == []
  {
    assert Suffixes == ["jpg", "png", "bmp", "jpeg", "tif"];
  }

  /** Without colormaps a raster suffix writes the single file `path.suffix`. */
  lemma WriteImagePlain(path: string, img: Frame, suffix: string, metadata: Option<Block>)
    requires suffix in ["jpg", "png", "bmp", "jpeg"]
    ensures WriteImage(path, img, suffix, metadata, None)
            == WriteReport([(path + "." + suffix, RasterFile(Plain(img)))], false, None)
  {
    assert Suffixes == ["jpg", "png", "bmp", "jpeg", "tif"];
  }

  /** With colormaps, a raster suffix first builds the colormap dict: a
      conversion `cv2.cvtColor` refuses raises before anything is written.
      Otherwise it writes one file per colormap key, named
      `path_{cmap}.{suffix}`, in dict order, and succeeds exactly when every
      requested name is a known colormap. */
  lemma WriteImageColormaps(path: string, img: Frame, suffix: string, metadata: Option<Block>, names: seq<string>)
    requires suffix in ["jpg", "png", "bmp", "jpeg"]
    requires |img.shape| > 0
    ensures var r := WriteImage(path, img, suffix, metadata, Some(names));
            && (ColormapsError(img, names).Some? ==> r == WriteReport([], false, ColormapsError(img, names)))
            && (r.error.None? <==> ColormapsError(img, names).None? && LoweredSet(names) <= KnownColormaps)
            && (r.error.None? ==>
                  (set w | w in r.writes :: w.0)
                  == set k | k in LoweredSet(names) + {AddedKey(img)} :: ColormapPath(path, k, suffix))
            && (ColormapsError(img, names).None? && r.error.Some? ==> r.error.value.ImwriteError?)
  {
    assert Suffixes == ["jpg", "png", "bmp", "jpeg", "tif"];
    if ColormapsError(img, names).None? {
      var d := Colormaps(img, names);
      var r := WriteEntries(path, suffix, d.order, d.entries);
      assert WriteImage(path, img, suffix, metadata, Some(names)) == r;
      ImageColormapsKeys(img, names);
      ImageColormapsKeepsInput(img, names);
      forall k | k in LoweredSet(names) ensures d.entries[k] == None <==> k !in KnownColormaps {
        ImageColormapsUnknownStayNone(img, names, k);
      }
      if r.error.None? {
        WrittenNames(path, suffix, d.order, d.entries);
        assert (set k | k in d.order :: ColormapPath(path, k, suffix))
            == (set k | k in LoweredSet(names) + {AddedKey(img)} :: ColormapPath(path, k, suffix));
      }
    }
  }

  /** The frames `cv2.cvtColor` accepts: a non-empty height x width frame
      with one or three channels never makes `image_colormaps` raise, while
      one with any other number of channels (four, say) always does. */
  lemma ColormapsErrorChannels(img: Frame, names: seq<string>)
    requires |img.shape| == 3
    ensures img.shape[0] > 0 && img.shape[1] > 0 && (img.shape[2] == 1 || img.shape[2] == 3)
            ==> ColormapsError(img, names).None?
    ensures img.shape[2] != 1 && img.shape[2] != 3 ==> ColormapsError(img, names) == Some(CvtColorError(img.shape))
  {
  }

  /** A colormap write loop that completes writes one file per key. */
  lemma WrittenNames(path: string, suffix: string, order: seq<string>, entries: map<string, Option<Pixels>>)
    requires forall k :: k in order ==> k in entries
    requires WriteEntries(path, suffix, order, entries).error.None?
    ensures (set w | w in WriteEntries(path, suffix, order, entries).writes :: w.0)
            == set k | k in order :: ColormapPath(path, k, suffix)
  {
    var r := WriteEntries(path, suffix, order, entries);
    NamesOfWrites(path, suffix, order, r.writes);
  }

  /** Writes named after the keys of `order`, one per key, write exactly
      the files of those keys. */
  lemma NamesOfWrites(path: string, suffix: string, order: seq<string>, ws: seq<(string, FileData)>)
    requires |ws| == |order|
    requires forall j :: 0 <= j < |ws| ==> ws[j].0 == ColormapPath(path, order[j], suffix)
    ensures (set w | w in ws :: w.0) == set k | k in order :: ColormapPath(path, k, suffix)
  {
    forall j | 0 <= j < |ws|
      ensures ws[j].0 in set k | k in order :: ColormapPath(path, k, suffix)
    {
      assert order[j] in order;
    }
    forall k | k in order
      ensures ColormapPath(path, k, suffix) in (set w | w in ws :: w.0)
    {
      var j :| 0 <= j < |order| && order[j] == k;
      assert ws[j] in ws;
    }
  }

  /** The TIFF branch writes `path.tif` with the metadata block and warns
      exactly when there is no metadata. */
  lemma WriteImageTif(path: string, img: Frame, metadata: Option<Block>, colormaps: Option<seq<string>>)
    ensures var r := WriteImage(path, img, "tif", metadata, colormaps);
            && r.writes == [(path + ".tif", TiffFile(img, metadata))]
            && r.error.None?
            && (r.warned <==> metadata.None?)
  {
    assert "tif" in Suffixes && "tif" !in RasterSuffixes;
  }

  /** `p` is `path` followed by '.' or '_'. */
  predicate NamedAfter(p: string, path: string) {
    |path| < |p| && p[..|path|] == path && (p[|path|] == '.' || p[|path|] == '_')
  }

  lemma NamedAfterBy(path: string, x: string)
    requires |x| > 0 && (x[0] == '.' || x[0] == '_')
    ensures NamedAfter(path + x, path)
  {
    assert (path + x)[..|path|] == path;
    assert (path + x)[|path|] == x[0];
  }

  /** Every file `write_image` writes is named after `path`: the path,
      then '.' and the suffix, or '_' and a colormap name. */
  lemma WriteImageNamedAfter(path: string, img: Frame, suffix: string, metadata: Option<Block>,
                             colormaps: Option<seq<string>>)
    ensures forall k :: 0 <= k < |WriteImage(path, img, suffix, metadata, colormaps).writes| ==>
              NamedAfter(WriteImage(path, img, suffix, metadata, colormaps).writes[k].0, path)
  {
    if suffix in RasterSuffixes && colormaps.Some? && |img.shape| > 0 && ColormapsError(img, colormaps.value).None? {
      var d := Colormaps(img, colormaps.value);
      assert WriteImage(path, img, suffix, metadata, colormaps) == WriteEntries(path, suffix, d.order, d.entries);
      EntriesNamedAfter(path, suffix, d.order, d.entries);
    } else if suffix in RasterSuffixes {
      NamedAfterBy(path, "." + suffix);
    } else if suffix in Suffixes {
      NamedAfterBy(path, ".tif");
    }
  }

  lemma EntriesNamedAfter(path: string, suffix: string, order: seq<string>, entries: map<string, Option<Pixels>>)
    requires forall k :: k in order ==> k in entries
    ensures forall k :: 0 <= k < |WriteEntries(path, suffix, order, entries).writes| ==>
              NamedAfter(WriteEntries(path, suffix, order, entries).writes[k].0, path)
  {
    var r := WriteEntries(path, suffix, order, entries);
    forall k | 0 <= k < |r.writes| ensures NamedAfter(r.writes[k].0, path) {
      NamedAfterBy(path, "_" + order[k] + "." + suffix);
      assert r.writes[k].0 == path + ("_" + order[k] + "." + suffix);
    }
  }
}

/** `load_tif_metadata` (neural_canvas/utils/utils.py): reads the image and
    the JSON metadata block of an archival TIFF and normalises the block
    into a metadata dictionary, tolerating legacy files. */
module TifMetadata {
  import opened Python
  import opened Storage

  /** A decoded metadata dictionary. */
  type Metadata = map<string, PyValue>

  datatype Warning = CouldNotLoad(path: string) | MissingKey(key: string) | LegacyLatent

  /** `(img, metadata)` as returned; `(None, None)` when the file or its
      block cannot be read. The warnings issued are kept alongside. */
  datatype Loaded = Loaded(image: Option<Frame>, metadata: Option<Metadata>, warnings: seq<Warning>)

  /** How a field is converted: `int(...)`, `float(...)`, or kept as read. */
  datatype Kind = IntKind | FloatKind | RawKind

  /** Python's `d[k]`. */
  function Get(d: map<string, PyValue>, k: string): (r: Result<PyValue, PyError>)
    ensures r.Ok? <==> k in d
    ensures k in d ==> r.value == d[k]
    ensures k !in d ==> r.error == KeyError(k)
  {
    if k in d then Ok(d[k]) else Err(KeyError(k))
  }

  function Convert(kind: Kind, v: PyValue): Result<PyValue, PyError> {
    match kind
    case IntKind => var i :- IntOf(v); Ok(PyInt(i))
    case FloatKind => var r :- FloatOf(v); Ok(PyFloat(r))
    case RawKind => Ok(v)
  }

  /** The keys every block must hold, in the order the source reads them. */
  const RequiredKeys: seq<(string, Kind)> :=
    [("seed", IntKind), ("latent_dim", IntKind), ("latent_scale", FloatKind), ("x_dim", IntKind),
     ("y_dim", IntKind), ("c_dim", IntKind), ("device", RawKind)]
  const IntKeys: seq<string> := ["mlp_layer_width", "conv_feature_map_size", "input_encoding_dim", "num_graph_nodes"]
  const FloatKeys: seq<string> := ["weight_init_mean", "weight_init_std", "weight_init_max", "weight_init_min"]
  const StrKeys: seq<string> := ["activations", "graph", "final_activation", "weight_init", "graph_topology"]

  /** The dict literal of required fields: each key is looked up and
      converted in order, and the first missing key or bad value raises. */
  function Required(keys: seq<(string, Kind)>, data: Block, m: Metadata): Result<Metadata, PyError>
    decreases |keys|
  {
    if keys == [] then Ok(m)
    else
      var v :- Get(data, keys[0].0);
      var c :- Convert(keys[0].1, v);
      Required(keys[1..], data, m[keys[0].0 := c])
  }

  /** A partly decoded block: the fields so far and the warnings so far. */
  datatype Decoding = Decoding(metadata: Metadata, warnings: seq<Warning>)

  /** One step of an optional-key loop: a present key is converted (a bad
      value raises), a missing key becomes `None` with a warning. */
  function OptionalStep(k: string, kind: Kind, data: Block, st: Decoding): Result<Decoding, PyError> {
    if k in data then
      var c :- Convert(kind, data[k]);
      Ok(st.(metadata := st.metadata[k := c]))
    else
      Ok(Decoding(st.metadata[k := PyNone], st.warnings + [MissingKey(k)]))
  }

  /** An optional-key loop over `keys`. */
  function Optional(keys: seq<string>, kind: Kind, data: Block, st: Decoding): Result<Decoding, PyError>
    decreases |keys|
  {
    if keys == [] then Ok(st)
    else
      var st' :- OptionalStep(keys[0], kind, data, st);
      Optional(keys[1..], kind, data, st')
  }

  /** The value stored under `latents`: `torch.Tensor` of the `latents`
      key, else `torch.tensor` of the legacy `latent` key, else `None`. A
      value the constructor rejects raises, since only a missing key is
      caught. */
  function LatentsValue(data: Block): Result<PyValue, PyError> {
    if "latents" in data then TensorOf(data["latents"])
    else if "latent" in data then NewTensorOf(data["latent"])
    else Ok(PyNone)
  }

  /** The `latents` field: the `latents` key, else the legacy `latent` key
      with a warning, else `None` with a warning. */
  function Latents(data: Block, st: Decoding): (r: Decoding)
    requires LatentsValue(data).Ok?
    ensures r.metadata.Keys == st.metadata.Keys + {"latents"}
    ensures forall k :: k in st.metadata && k != "latents" ==> r.metadata[k] == st.metadata[k]
    ensures r.metadata["latents"] == LatentsValue(data).value
  {
    var t := LatentsValue(data).value;
    if "latents" in data then st.(metadata := st.metadata["latents" := t])
    else if "latent" in data then Decoding(st.metadata["latents" := t], st.warnings + [LegacyLatent])
    else Decoding(st.metadata["latents" := t], st.warnings + [MissingKey("latents")])
  }

  /** The two legacy normalisations applied last: a `None`
      `input_encoding_dim` becomes 1 and `activations` 'basic' becomes 'fixed'. */
  function Normalise(m: Metadata): (r: Result<Metadata, PyError>)
    ensures r.Ok? <==> "input_encoding_dim" in m && "activations" in m
    ensures r.Ok? ==> r.value.Keys == m.Keys
    ensures r.Ok? ==> r.value["input_encoding_dim"] != PyNone && r.value["activations"] != PyStr("basic")
    ensures r.Ok? ==> forall k :: k in m && k != "input_encoding_dim" && k != "activations" ==> r.value[k] == m[k]
  {
    var enc :- Get(m, "input_encoding_dim");
    var m := if enc == PyNone then m["input_encoding_dim" := PyInt(1)] else m;
    var act :- Get(m, "activations");
    Ok(if act == PyStr("basic") then m["activations" := PyStr("fixed")] else m)
  }

  /** Decoding a metadata block read from a file: the required fields,
      then `z_dim` (falling back to `x_dim`), then the optional fields,
      the latents and the normalisations. */
  function Decode(data: Block): Result<Decoding, PyError> {
    var m :- Required(RequiredKeys, data, map[]);
    var zSource :- if "z_dim" in data then Ok(data["z_dim"]) else Get(data, "x_dim");
    var z :- IntOf(zSource);
    AfterZDim(data, Decoding(m["z_dim" := PyInt(z)], []))
  }

  function AfterZDim(data: Block, st: Decoding): Result<Decoding, PyError> {
    var st :- Optional(IntKeys, IntKind, data, st);
    AfterInts(data, st)
  }

  function AfterInts(data: Block, st: Decoding): Result<Decoding, PyError> {
    var st :- Optional(FloatKeys, FloatKind, data, st);
    AfterFloats(data, st)
  }

  function AfterFloats(data: Block, st: Decoding): Result<Decoding, PyError> {
    var st :- Optional(StrKeys, RawKind, data, st);
    Finish(data, st)
  }

  function Finish(data: Block, st: Decoding): Result<Decoding, PyError> {
    var _ :- LatentsValue(data);
    var st := Latents(data, st);
    var m :- Normalise(st.metadata);
    Ok(st.(metadata := m))
  }

  /** What makes a block fail to decode: a missing key (KeyError), a value
      `int`/`float` or a tensor constructor rejects (TypeError), a string
      that is not a number or a ragged list (ValueError), and a legacy
      `latent` of `None` or a negative size (RuntimeError). */
  predicate DecodeError(e: PyError) { e.KeyError? || e.TypeError? || e.ValueError? || e.RuntimeError? }

  /** A conversion rejects a string with ValueError and any other value
      with TypeError. */
  lemma ConvertErrors(kind: Kind, v: PyValue)
    ensures Convert(kind, v).Err? ==> kind != RawKind && DecodeError(Convert(kind, v).error)
    ensures Convert(kind, v).Err? ==> if v.PyStr? then Convert(kind, v).error.ValueError?
                                      else Convert(kind, v).error.TypeError?
  {
  }

  lemma {:induction false} RequiredErrors(keys: seq<(string, Kind)>, data: Block, m: Metadata)
    ensures Required(keys, data, m).Err? ==> DecodeError(Required(keys, data, m).error)
    decreases |keys|
  {
    if keys != [] && keys[0].0 in data {
      ConvertErrors(keys[0].1, data[keys[0].0]);
      var c := Convert(keys[0].1, data[keys[0].0]);
      if c.Ok? {
        RequiredErrors(keys[1..], data, m[keys[0].0 := c.value]);
      }
    }
  }

  lemma {:induction false} OptionalErrors(keys: seq<string>, kind: Kind, data: Block, st: Decoding)
    ensures Optional(keys, kind, data, st).Err? ==> DecodeError(Optional(keys, kind, data, st).error)
    decreases |keys|
  {
    if keys != [] {
      if keys[0] in data {
        ConvertErrors(kind, data[keys[0]]);
      }
      var s := OptionalStep(keys[0], kind, data, st);
      if s.Ok? {
        OptionalErrors(keys[1..], kind, data, s.value);
      }
    }
  }

  lemma DecodeErrors(data: Block)
    ensures Decode(data).Err? ==> DecodeError(Decode(data).error)
  {
    RequiredErrors(RequiredKeys, data, map[]);
    var m := Required(RequiredKeys, data, map[]);
    if m.Ok? {
      var zSource := if "z_dim" in data then Ok(data["z_dim"]) else Get(data, "x_dim");
      if zSource.Ok? && IntOf(zSource.value).Ok? {
        var st := Decoding(m.value["z_dim" := PyInt(IntOf(zSource.value).value)], []);
        OptionalErrors(IntKeys, IntKind, data, st);
        var s1 := Optional(IntKeys, IntKind, data, st);
        if s1.Ok? {
          OptionalErrors(FloatKeys, FloatKind, data, s1.value);
          var s2 := Optional(FloatKeys, FloatKind, data, s1.value);
          if s2.Ok? {
            OptionalErrors(StrKeys, RawKind, data, s2.value);
            LatentsErrors(data);
          }
        }
      }
    }
  }

  /** The tensor constructors fail only in the ways `DecodeError` names. */
  lemma LatentsErrors(data: Block)
    ensures LatentsValue(data).Err? ==> DecodeError(LatentsValue(data).error)
    ensures LatentsValue(data).Err? && "latents" in data ==>
              if data["latents"].PyInt? then LatentsValue(data).error.RuntimeError?
              else if data["latents"].PyList? then LatentsValue(data).error.ValueError?
              else LatentsValue(data).error.TypeError?
  {
  }

  /** The warnings an optional-key loop issues: one per missing key, in order. */
  function Missing(keys: seq<string>, data: Block): (w: seq<Warning>)
    ensures |w| <= |keys|
    ensures forall i :: 0 <= i < |w| ==> w[i].MissingKey?
    decreases |keys|
  {
    if keys == [] then []
    else (if keys[0] in data then [] else [MissingKey(keys[0])]) + Missing(keys[1..], data)
  }

  /** A loop warns about a key exactly when the key is one of its own and
      the block lacks it. */
  lemma {:induction false} MissingExactly(keys: seq<string>, data: Block, k: string)
    ensures MissingKey(k) in Missing(keys, data) <==> k in keys && k !in data
    decreases |keys|
  {
    if keys != [] {
      MissingExactly(keys[1..], data, k);
      assert k in keys <==> k == keys[0] || k in keys[1..];
    }
  }

  /** Field `k` of `m` holds what the optional-key loop of this kind stores:
      the converted value when the block has `k`, `None` otherwise. */
  predicate FieldFrom(data: Block, kind: Kind, k: string, m: Metadata) {
    k in m && if k in data then Convert(kind, data[k]) == Ok(m[k]) else m[k] == PyNone
  }

  /** An optional-key loop fails exactly when a present value does not convert. */
  lemma {:induction false} OptionalOk(keys: seq<string>, kind: Kind, data: Block, st: Decoding)
    ensures Optional(keys, kind, data, st).Ok?
            <==> forall k :: k in keys && k in data ==> Convert(kind, data[k]).Ok?
    decreases |keys|
  {
    if keys != [] {
      var s := OptionalStep(keys[0], kind, data, st);
      if s.Ok? {
        OptionalOk(keys[1..], kind, data, s.value);
        assert forall k :: k in keys <==> k == keys[0] || k in keys[1..];
      }
    }
  }

  /** A successful optional-key loop adds exactly its keys to the dictionary. */
  lemma {:induction false} OptionalKeys(keys: seq<string>, kind: Kind, data: Block, st: Decoding)
    requires Optional(keys, kind, data, st).Ok?
    ensures Optional(keys, kind, data, st).value.metadata.Keys == st.metadata.Keys + (set k | k in keys)
    decreases |keys|
  {
    if keys != [] {
      var s := OptionalStep(keys[0], kind, data, st);
      OptionalKeys(keys[1..], kind, data, s.value);
      assert (set k | k in keys) == {keys[0]} + (set k | k in keys[1..]);
    }
  }

  /** A successful optional-key loop stores each of its keys as read and
      converted, or `None` for a missing one. */
  lemma {:induction false} OptionalFields(keys: seq<string>, kind: Kind, data: Block, st: Decoding)
    requires Optional(keys, kind, data, st).Ok?
    ensures forall k :: k in keys ==> FieldFrom(data, kind, k, Optional(keys, kind, data, st).value.metadata)
    decreases |keys|
  {
    if keys != [] {
      var s := OptionalStep(keys[0], kind, data, st);
      var r := Optional(keys, kind, data, st).value;
      OptionalFields(keys[1..], kind, data, s.value);
      if keys[0] !in keys[1..] {
        OptionalKeeps(keys[1..], kind, data, s.value);
      }
      assert forall k :: k in keys ==> k == keys[0] || k in keys[1..];
    }
  }

  /** A successful optional-key loop leaves every other field as it was. */
  lemma {:induction false} OptionalKeeps(keys: seq<string>, kind: Kind, data: Block, st: Decoding)
    requires Optional(keys, kind, data, st).Ok?
    ensures forall k :: k in st.metadata && k !in keys ==>
              k in Optional(keys, kind, data, st).value.metadata
              && Optional(keys, kind, data, st).value.metadata[k] == st.metadata[k]
    decreases |keys|
  {
    if keys != [] {
      var s := OptionalStep(keys[0], kind, data, st);
      OptionalKeeps(keys[1..], kind, data, s.value);
    }
  }

  /** A successful optional-key loop warns once per missing key, in order. */
  lemma {:induction false} OptionalWarnings(keys: seq<string>, kind: Kind, data: Block, st: Decoding)
    requires Optional(keys, kind, data, st).Ok?
    ensures Optional(keys, kind, data, st).value.warnings == st.warnings + Missing(keys, data)
    decreases |keys|
  {
    if keys != [] {
      var s := OptionalStep(keys[0], kind, data, st);
      OptionalWarnings(keys[1..], kind, data, s.value);
    }
  }

  /** The names of a list of required keys. */
  function Names(keys: seq<(string, Kind)>): set<string> {
    set p | p in keys :: p.0
  }

  /** The dict literal of required fields succeeds exactly when every key
      is present and converts. */
  lemma {:induction false} RequiredOk(keys: seq<(string, Kind)>, data: Block, m: Metadata)
    ensures Required(keys, data, m).Ok?
            <==> forall i :: 0 <= i < |keys| ==> keys[i].0 in data && Convert(keys[i].1, data[keys[i].0]).Ok?
    decreases |keys|
  {
    if keys != [] {
      var k0 := keys[0].0;
      if k0 in data && Convert(keys[0].1, data[k0]).Ok? {
        RequiredOk(keys[1..], data, m[k0 := Convert(keys[0].1, data[k0]).value]);
        assert forall i :: 1 <= i < |keys| ==> keys[i] == keys[1..][i - 1];
      }
    }
  }

  /** A successful dict literal holds exactly the required fields, each
      converted from the block, on top of what `m` held. */
  lemma {:induction false} RequiredFields(keys: seq<(string, Kind)>, data: Block, m: Metadata)
    requires forall i, j :: 0 <= i < j < |keys| ==> keys[i].0 != keys[j].0
    requires Required(keys, data, m).Ok?
    ensures Required(keys, data, m).value.Keys == m.Keys + Names(keys)
    ensures forall i :: 0 <= i < |keys| ==>
              keys[i].0 in data && Convert(keys[i].1, data[keys[i].0]) == Ok(Required(keys, data, m).value[keys[i].0])
    decreases |keys|
  {
    if keys != [] {
      var k0 := keys[0].0;
      var m' := m[k0 := Convert(keys[0].1, data[k0]).value];
      var rest := keys[1..];
      RequiredFields(rest, data, m');
      assert forall i, j :: 0 <= i < j < |rest| ==> rest[i].0 != rest[j].0 by {
        forall i, j | 0 <= i < j < |rest| ensures rest[i].0 != rest[j].0 {
          assert rest[i] == keys[i + 1] && rest[j] == keys[j + 1];
        }
      }
      assert forall j :: 0 <= j < |rest| ==> rest[j].0 != k0 by {
        forall j | 0 <= j < |rest| ensures rest[j].0 != k0 {
          assert rest[j] == keys[j + 1];
        }
      }
      RequiredKeeps(rest, data, m', k0);
      assert forall i :: 1 <= i < |keys| ==> keys[i] == rest[i - 1];
    }
  }

  /** The dict literal leaves a field it does not name as it was. */
  lemma {:induction false} RequiredKeeps(keys: seq<(string, Kind)>, data: Block, m: Metadata, k: string)
    requires Required(keys, data, m).Ok?
    requires k in m && k !in Names(keys)
    ensures k in Required(keys, data, m).value && Required(keys, data, m).value[k] == m[k]
    decreases |keys|
  {
    if keys != [] {
      RequiredKeeps(keys[1..], data, m[keys[0].0 := Convert(keys[0].1, data[keys[0].0]).value], k);
    }
  }

  /** Where `z_dim` is read from: `z_dim`, or `x_dim` when absent. */
  function ZSource(data: Block): PyValue
    requires "z_dim" in data || "x_dim" in data
  {
    if "z_dim" in data then data["z_dim"] else data["x_dim"]
  }

  /** The stages of a successful decode, named so that the lemmas below can
      speak about each loop's input and output. */
  lemma DecodeStages(data: Block) returns (m0: Metadata, st1: Decoding, st2: Decoding, st3: Decoding, st4: Decoding)
    requires Decode(data).Ok?
    ensures Required(RequiredKeys, data, map[]) == Ok(m0)
    ensures "x_dim" in data
    ensures st1.warnings == [] && st1.metadata ==
              m0["z_dim" := PyInt(IntOf(ZSource(data)).value)]
    ensures IntOf(ZSource(data)).Ok?
    ensures Optional(IntKeys, IntKind, data, st1) == Ok(st2)
    ensures Optional(FloatKeys, FloatKind, data, st2) == Ok(st3)
    ensures Optional(StrKeys, RawKind, data, st3) == Ok(st4)
    ensures LatentsValue(data).Ok?
    ensures Normalise(Latents(data, st4).metadata).Ok?
    ensures Decode(data).value == Latents(data, st4).(metadata := Normalise(Latents(data, st4).metadata).value)
  {
    m0 := Required(RequiredKeys, data, map[]).value;
    RequiredKeysDistinct();
    RequiredFields(RequiredKeys, data, map[]);
    var z := IntOf(ZSource(data)).value;
    st1 := Decoding(m0["z_dim" := PyInt(z)], []);
    st2 := Optional(IntKeys, IntKind, data, st1).value;
    st3 := Optional(FloatKeys, FloatKind, data, st2).value;
    st4 := Optional(StrKeys, RawKind, data, st3).value;
  }

  /** Every key a decoded dictionary holds: the required ones, `z_dim`,
      the optional ones and `latents`. */
  function DecodedKeys(): set<string> {
    Names(RequiredKeys) + {"z_dim"} + (set k | k in IntKeys) + (set k | k in FloatKeys)
    + (set k | k in StrKeys) + {"latents"}
  }

  lemma LatentNotRequired()
    ensures forall p :: p in RequiredKeys ==> p.0 != "latent"
  {
  }

  lemma LatentNotOptional()
    ensures "latent" !in IntKeys && "latent" !in FloatKeys && "latent" !in StrKeys
  {
  }

  /** The old-style `latent` key is not among the decoded keys. */
  lemma LatentNotDecoded()
    ensures "latent" !in DecodedKeys()
  {
    LatentNotRequired();
    LatentNotOptional();
    assert "latent" !in Names(RequiredKeys);
    assert "latent" !in (set k | k in IntKeys) + (set k | k in FloatKeys) + (set k | k in StrKeys);
  }

  /** The required keys are distinct, and `x_dim` is the fourth. */
  lemma RequiredKeysDistinct()
    ensures forall i, j :: 0 <= i < j < |RequiredKeys| ==> RequiredKeys[i].0 != RequiredKeys[j].0
    ensures RequiredKeys[3] == ("x_dim", IntKind)
  {
  }

  /** The keys after each stage, on their own. */
  lemma StageKeys(data: Block, m0: Metadata, st1: Decoding, st2: Decoding, st3: Decoding, st4: Decoding)
    requires Required(RequiredKeys, data, map[]) == Ok(m0)
    requires st1.metadata.Keys == m0.Keys + {"z_dim"}
    requires Optional(IntKeys, IntKind, data, st1) == Ok(st2)
    requires Optional(FloatKeys, FloatKind, data, st2) == Ok(st3)
    requires Optional(StrKeys, RawKind, data, st3) == Ok(st4)
    requires LatentsValue(data).Ok?
    ensures Latents(data, st4).metadata.Keys == DecodedKeys()
  {
    RequiredKeysDistinct();
    StageKeysOf(RequiredKeys, IntKeys, FloatKeys, StrKeys, data, m0, st1, st2, st3, st4);
  }

  lemma {:induction false} StageKeysOf(keys: seq<(string, Kind)>, ik: seq<string>, fk: seq<string>, sk: seq<string>,
                                       data: Block, m0: Metadata, st1: Decoding, st2: Decoding, st3: Decoding, st4: Decoding)
    requires forall i, j :: 0 <= i < j < |keys| ==> keys[i].0 != keys[j].0
    requires Required(keys, data, map[]) == Ok(m0)
    requires st1.metadata.Keys == m0.Keys + {"z_dim"}
    requires Optional(ik, IntKind, data, st1) == Ok(st2)
    requires Optional(fk, FloatKind, data, st2) == Ok(st3)
    requires Optional(sk, RawKind, data, st3) == Ok(st4)
    requires LatentsValue(data).Ok?
    ensures Latents(data, st4).metadata.Keys
            == Names(keys) + {"z_dim"} + (set k | k in ik) + (set k | k in fk) + (set k | k in sk) + {"latents"}
  {
    RequiredFields(keys, data, map[]);
    OptionalKeys(ik, IntKind, data, st1);
    OptionalKeys(fk, FloatKind, data, st2);
    OptionalKeys(sk, RawKind, data, st3);
  }

  /** A decoded dictionary has exactly the fixed key set: the old-style
      `latent` key is never among them (it is read into `latents`). */
  lemma DecodeKeys(data: Block)
    requires Decode(data).Ok?
    ensures Decode(data).value.metadata.Keys == DecodedKeys()
    ensures "latent" !in Decode(data).value.metadata
  {
    var m0, st1, st2, st3, st4 := DecodeStages(data);
    StageKeys(data, m0, st1, st2, st3, st4);
    LatentNotDecoded();
  }

  /** A block decodes exactly when every required field is present and
      converts, `z_dim` (or `x_dim` in its place) converts to an int,
      every optional numeric field that is present converts, and the
      tensor constructor accepts the latents that are present. */
  predicate Decodable(data: Block) {
    && (forall i :: 0 <= i < |RequiredKeys| ==>
          RequiredKeys[i].0 in data && Convert(RequiredKeys[i].1, data[RequiredKeys[i].0]).Ok?)
    && ("z_dim" in data ==> IntOf(data["z_dim"]).Ok?)
    && (forall k :: k in IntKeys && k in data ==> IntOf(data[k]).Ok?)
    && (forall k :: k in FloatKeys && k in data ==> FloatOf(data[k]).Ok?)
    && ("latents" in data ==> TensorOf(data["latents"]).Ok?)
    && ("latents" !in data && "latent" in data ==> NewTensorOf(data["latent"]).Ok?)
  }

  /** No required key is written again later. */
  lemma RequiredKeysFinal()
    ensures forall p :: p in RequiredKeys ==>
              p.0 != "z_dim" && p.0 !in IntKeys && p.0 !in FloatKeys && p.0 !in StrKeys && p.0 != "latents"
              && p.0 != "input_encoding_dim" && p.0 != "activations"
  {
    RequiredNotInt();
    RequiredNotLater();
    RequiredNotFloat();
    RequiredNotStr();
  }

  lemma RequiredNotInt()
    ensures forall p :: p in RequiredKeys ==> p.0 !in IntKeys
  {
  }

  lemma RequiredNotLater()
    ensures forall p :: p in RequiredKeys ==> p.0 != "z_dim" && p.0 != "latents"
  {
  }

  lemma RequiredNotFloat()
    ensures forall p :: p in RequiredKeys ==> p.0 !in FloatKeys
  {
  }

  lemma RequiredNotStr()
    ensures forall p :: p in RequiredKeys ==> p.0 !in StrKeys
  {
  }

  lemma ZDimFinal()
    ensures "z_dim" !in IntKeys && "z_dim" !in FloatKeys && "z_dim" !in StrKeys
    ensures "z_dim" != "latents" && "z_dim" != "input_encoding_dim" && "z_dim" != "activations"
  {
  }

  lemma IntKeysFinal()
    ensures forall k :: k in IntKeys ==> k !in FloatKeys && k !in StrKeys && k != "latents" && k != "activations"
  {
  }

  lemma FloatKeysFinal()
    ensures forall k :: k in FloatKeys ==>
              k !in StrKeys && k != "latents" && k != "activations" && k != "input_encoding_dim"
  {
  }

  lemma StrKeysFinal()
    ensures forall k :: k in StrKeys ==> k != "latents" && k != "input_encoding_dim"
  {
  }

  /** The decoded value of field `k` when nothing after stage `st` writes it. */
  function Final(data: Block, st4: Decoding): Metadata
    requires LatentsValue(data).Ok? && Normalise(Latents(data, st4).metadata).Ok?
  {
    Normalise(Latents(data, st4).metadata).value
  }

  /** A field the string loop, the latents and the normalisations do not
      name keeps the value it had before the string loop. */
  lemma KeptFromStr(data: Block, st3: Decoding, st4: Decoding, k: string)
    requires Optional(StrKeys, RawKind, data, st3) == Ok(st4)
    requires LatentsValue(data).Ok? && Normalise(Latents(data, st4).metadata).Ok?
    requires k in st3.metadata && k !in StrKeys
    requires k != "latents" && k != "input_encoding_dim" && k != "activations"
    ensures k in Final(data, st4) && Final(data, st4)[k] == st3.metadata[k]
  {
    OptionalKeeps(StrKeys, RawKind, data, st3);
  }

  /** Likewise from before the float loop. */
  lemma KeptFromFloat(data: Block, st2: Decoding, st3: Decoding, st4: Decoding, k: string)
    requires Optional(FloatKeys, FloatKind, data, st2) == Ok(st3)
    requires Optional(StrKeys, RawKind, data, st3) == Ok(st4)
    requires LatentsValue(data).Ok? && Normalise(Latents(data, st4).metadata).Ok?
    requires k in st2.metadata && k !in FloatKeys && k !in StrKeys
    requires k != "latents" && k != "input_encoding_dim" && k != "activations"
    ensures k in Final(data, st4) && Final(data, st4)[k] == st2.metadata[k]
  {
    OptionalKeeps(FloatKeys, FloatKind, data, st2);
    KeptFromStr(data, st3, st4, k);
  }

  /** Likewise from before the int loop. */
  lemma KeptFromInt(data: Block, st1: Decoding, st2: Decoding, st3: Decoding, st4: Decoding, k: string)
    requires Optional(IntKeys, IntKind, data, st1) == Ok(st2)
    requires Optional(FloatKeys, FloatKind, data, st2) == Ok(st3)
    requires Optional(StrKeys, RawKind, data, st3) == Ok(st4)
    requires LatentsValue(data).Ok? && Normalise(Latents(data, st4).metadata).Ok?
    requires k in st1.metadata && k !in IntKeys && k !in FloatKeys && k !in StrKeys
    requires k != "latents" && k != "input_encoding_dim" && k != "activations"
    ensures k in Final(data, st4) && Final(data, st4)[k] == st1.metadata[k]
  {
    OptionalKeeps(IntKeys, IntKind, data, st1);
    KeptFromFloat(data, st2, st3, st4, k);
  }

  /** The stage equations of a successful decode, `DecodeStages` spelled
      out as a predicate. */
  predicate Stages(data: Block, m0: Metadata, st1: Decoding, st2: Decoding, st3: Decoding, st4: Decoding) {
    && Required(RequiredKeys, data, map[]) == Ok(m0)
    && ("z_dim" in data || "x_dim" in data)
    && IntOf(ZSource(data)).Ok?
    && st1.metadata == m0["z_dim" := PyInt(IntOf(ZSource(data)).value)]
    && Optional(IntKeys, IntKind, data, st1) == Ok(st2)
    && Optional(FloatKeys, FloatKind, data, st2) == Ok(st3)
    && Optional(StrKeys, RawKind, data, st3) == Ok(st4)
    && LatentsValue(data).Ok?
    && Normalise(Latents(data, st4).metadata).Ok?
  }

  lemma StagesRequiredFields(data: Block, m0: Metadata, st1: Decoding, st2: Decoding, st3: Decoding, st4: Decoding)
    requires Stages(data, m0, st1, st2, st3, st4)
    ensures forall p :: p in RequiredKeys ==>
              p.0 in data && p.0 in Final(data, st4) && Convert(p.1, data[p.0]) == Ok(Final(data, st4)[p.0])
  {
    forall p | p in RequiredKeys
      ensures p.0 in data && p.0 in Final(data, st4) && Convert(p.1, data[p.0]) == Ok(Final(data, st4)[p.0])
    {
      var i :| 0 <= i < |RequiredKeys| && RequiredKeys[i] == p;
      RequiredFieldAt(data, m0, st1, st2, st3, st4, i);
    }
  }

  lemma RequiredFieldAt(data: Block, m0: Metadata, st1: Decoding, st2: Decoding, st3: Decoding, st4: Decoding, i: nat)
    requires Stages(data, m0, st1, st2, st3, st4) && i < |RequiredKeys|
    ensures RequiredKeys[i].0 in data && RequiredKeys[i].0 in Final(data, st4)
    ensures Convert(RequiredKeys[i].1, data[RequiredKeys[i].0]) == Ok(Final(data, st4)[RequiredKeys[i].0])
  {
    RequiredKeysDistinct();
    RequiredFields(RequiredKeys, data, map[]);
    RequiredKeysFinal();
    assert RequiredKeys[i] in RequiredKeys;
    KeptFromInt(data, st1, st2, st3, st4, RequiredKeys[i].0);
  }

  lemma StagesZDim(data: Block, m0: Metadata, st1: Decoding, st2: Decoding, st3: Decoding, st4: Decoding)
    requires Stages(data, m0, st1, st2, st3, st4)
    ensures "z_dim" in Final(data, st4) && Final(data, st4)["z_dim"] == PyInt(IntOf(ZSource(data)).value)
  {
    ZDimFinal();
    KeptFromInt(data, st1, st2, st3, st4, "z_dim");
  }

  /** Every required field holds its value from the block, converted. */
  lemma DecodeRequiredFields(data: Block)
    requires Decode(data).Ok?
    ensures forall p :: p in RequiredKeys ==>
              p.0 in data && p.0 in Decode(data).value.metadata
              && Convert(p.1, data[p.0]) == Ok(Decode(data).value.metadata[p.0])
  {
    var m0, st1, st2, st3, st4 := DecodeStages(data);
    StagesRequiredFields(data, m0, st1, st2, st3, st4);
  }

  /** `z_dim` holds the block's `z_dim`, or its `x_dim` when absent,
      converted to an int. */
  lemma DecodeZDim(data: Block)
    requires Decode(data).Ok?
    ensures "x_dim" in data
    ensures IntOf(ZSource(data)).Ok?
    ensures "z_dim" in Decode(data).value.metadata
    ensures Decode(data).value.metadata["z_dim"] == PyInt(IntOf(ZSource(data)).value)
  {
    var m0, st1, st2, st3, st4 := DecodeStages(data);
    StagesZDim(data, m0, st1, st2, st3, st4);
  }

  /** Each optional field holds its value from the block, converted, or
      `None` when the block lacks it; `input_encoding_dim` and `activations`
      are the two exceptions (see `DecodeNormalised`). */
  lemma DecodeOptionalFields(data: Block)
    requires Decode(data).Ok?
    ensures forall k :: k in IntKeys && k != "input_encoding_dim" ==>
              FieldFrom(data, IntKind, k, Decode(data).value.metadata)
    ensures forall k :: k in FloatKeys ==> FieldFrom(data, FloatKind, k, Decode(data).value.metadata)
    ensures forall k :: k in StrKeys && k != "activations" ==>
              FieldFrom(data, RawKind, k, Decode(data).value.metadata)
  {
    var m0, st1, st2, st3, st4 := DecodeStages(data);
    OptionalFields(IntKeys, IntKind, data, st1);
    OptionalFields(FloatKeys, FloatKind, data, st2);
    OptionalFields(StrKeys, RawKind, data, st3);
    IntKeysFinal();
    FloatKeysFinal();
    StrKeysFinal();
    forall k | k in IntKeys && k != "input_encoding_dim"
      ensures FieldFrom(data, IntKind, k, Final(data, st4))
    {
      KeptFromFloat(data, st2, st3, st4, k);
    }
    forall k | k in FloatKeys
      ensures FieldFrom(data, FloatKind, k, Final(data, st4))
    {
      KeptFromStr(data, st3, st4, k);
    }
    forall k | k in StrKeys && k != "activations"
      ensures FieldFrom(data, RawKind, k, Final(data, st4))
    {
      assert Latents(data, st4).metadata[k] == st4.metadata[k];
    }
  }

  lemma NormalisedKeys()
    ensures "input_encoding_dim" in IntKeys && "input_encoding_dim" !in FloatKeys
    ensures "input_encoding_dim" !in StrKeys && "activations" in StrKeys
  {
  }

  /** The legacy activation name 'basic' reads as 'fixed'. */
  function Activation(v: PyValue): PyValue {
    if v == PyStr("basic") then PyStr("fixed") else v
  }

  /** `input_encoding_dim` is the block's value converted to an int, or 1
      when the block lacks it, never `None`; `activations` is the block's
      value (or `None`) with 'basic' read as 'fixed'. */
  lemma DecodeNormalised(data: Block)
    requires Decode(data).Ok?
    ensures "input_encoding_dim" in Decode(data).value.metadata
    ensures "input_encoding_dim" in data ==>
              IntOf(data["input_encoding_dim"]).Ok?
              && Decode(data).value.metadata["input_encoding_dim"] == PyInt(IntOf(data["input_encoding_dim"]).value)
    ensures "input_encoding_dim" !in data ==> Decode(data).value.metadata["input_encoding_dim"] == PyInt(1)
    ensures "activations" in Decode(data).value.metadata
    ensures Decode(data).value.metadata["activations"]
            == Activation(if "activations" in data then data["activations"] else PyNone)
  {
    var m0, st1, st2, st3, st4 := DecodeStages(data);
    OptionalFields(IntKeys, IntKind, data, st1);
    NormalisedKeys();
    StagesEncodingDim(data, FloatKeys, StrKeys, st2, st3, st4);
    StagesActivations(data, StrKeys, st3, st4);
  }

  lemma {:induction false} StagesEncodingDim(data: Block, fk: seq<string>, sk: seq<string>, st2: Decoding, st3: Decoding, st4: Decoding)
    requires Optional(fk, FloatKind, data, st2) == Ok(st3)
    requires Optional(sk, RawKind, data, st3) == Ok(st4)
    requires "input_encoding_dim" !in fk && "input_encoding_dim" !in sk && "activations" in sk
    requires FieldFrom(data, IntKind, "input_encoding_dim", st2.metadata)
    requires LatentsValue(data).Ok? && Normalise(Latents(data, st4).metadata).Ok?
    ensures "input_encoding_dim" in Final(data, st4)
    ensures "input_encoding_dim" in data ==>
              IntOf(data["input_encoding_dim"]).Ok?
              && Final(data, st4)["input_encoding_dim"] == PyInt(IntOf(data["input_encoding_dim"]).value)
    ensures "input_encoding_dim" !in data ==> Final(data, st4)["input_encoding_dim"] == PyInt(1)
  {
    var k := "input_encoding_dim";
    OptionalKeeps(fk, FloatKind, data, st2);
    OptionalKeeps(sk, RawKind, data, st3);
    OptionalKeys(sk, RawKind, data, st3);
    var l := Latents(data, st4).metadata;
    assert k != "latents";
    assert l[k] == st2.metadata[k];
    NormaliseValues(l);
  }

  lemma {:induction false} StagesActivations(data: Block, sk: seq<string>, st3: Decoding, st4: Decoding)
    requires Optional(sk, RawKind, data, st3) == Ok(st4)
    requires "activations" in sk
    requires LatentsValue(data).Ok? && Normalise(Latents(data, st4).metadata).Ok?
    ensures "activations" in Final(data, st4)
    ensures Final(data, st4)["activations"] == Activation(if "activations" in data then data["activations"] else PyNone)
  {
    OptionalFields(sk, RawKind, data, st3);
    var l := Latents(data, st4).metadata;
    assert "activations" != "latents";
    assert FieldFrom(data, RawKind, "activations", l);
    assert l["activations"] == if "activations" in data then data["activations"] else PyNone;
    NormaliseValues(l);
  }

  /** What the two normalisations store. */
  lemma NormaliseValues(m: Metadata)
    requires "input_encoding_dim" in m && "activations" in m
    ensures Normalise(m).Ok?
    ensures Normalise(m).value["input_encoding_dim"]
            == if m["input_encoding_dim"] == PyNone then PyInt(1) else m["input_encoding_dim"]
    ensures Normalise(m).value["activations"] == Activation(m["activations"])
  {
    assert "input_encoding_dim" != "activations";
  }

  /** The warnings every successful decode issues, in order: one per
      missing optional key, then one about the latents unless the block
      has `latents`. */
  function DecodeWarnings(data: Block): seq<Warning> {
    Missing(IntKeys, data) + Missing(FloatKeys, data) + Missing(StrKeys, data)
    + (if "latents" in data then [] else if "latent" in data then [LegacyLatent] else [MissingKey("latents")])
  }

  /** `latents` holds the tensor built from the block's `latents`, else
      from its old-style `latent`, else `None`; and the warnings are
      exactly `DecodeWarnings`. */
  lemma DecodeLatents(data: Block)
    requires Decode(data).Ok?
    ensures "latents" in Decode(data).value.metadata
    ensures "latents" in data ==> TensorOf(data["latents"]) == Ok(Decode(data).value.metadata["latents"])
    ensures "latents" !in data && "latent" in data ==>
              NewTensorOf(data["latent"]) == Ok(Decode(data).value.metadata["latents"])
    ensures "latents" !in data && "latent" !in data ==> Decode(data).value.metadata["latents"] == PyNone
    ensures Decode(data).value.warnings == DecodeWarnings(data)
    ensures LegacyLatent in Decode(data).value.warnings <==> "latents" !in data && "latent" in data
  {
    var m0, st1, st2, st3, st4 := DecodeStages(data);
    StagesWarnings(data, IntKeys, FloatKeys, StrKeys, st1, st2, st3, st4);
    LatentsSurvive(data, st4);
  }

  lemma {:induction false} StagesWarnings(data: Block, ik: seq<string>, fk: seq<string>, sk: seq<string>,
                       st1: Decoding, st2: Decoding, st3: Decoding, st4: Decoding)
    requires st1.warnings == []
    requires Optional(ik, IntKind, data, st1) == Ok(st2)
    requires Optional(fk, FloatKind, data, st2) == Ok(st3)
    requires Optional(sk, RawKind, data, st3) == Ok(st4)
    ensures st4.warnings == Missing(ik, data) + Missing(fk, data) + Missing(sk, data)
    ensures LegacyLatent !in st4.warnings
  {
    OptionalWarnings(ik, IntKind, data, st1);
    OptionalWarnings(fk, FloatKind, data, st2);
    OptionalWarnings(sk, RawKind, data, st3);
    assert st2.warnings == Missing(ik, data);
    OnlyMissingKeys(Missing(ik, data), Missing(fk, data), Missing(sk, data));
  }

  lemma {:induction false} OnlyMissingKeys(a: seq<Warning>, b: seq<Warning>, c: seq<Warning>)
    requires forall i :: 0 <= i < |a| ==> a[i].MissingKey?
    requires forall i :: 0 <= i < |b| ==> b[i].MissingKey?
    requires forall i :: 0 <= i < |c| ==> c[i].MissingKey?
    ensures LegacyLatent !in a + b + c
  {
  }

  lemma LatentsSurvive(data: Block, st4: Decoding)
    requires LatentsValue(data).Ok? && Normalise(Latents(data, st4).metadata).Ok?
    ensures "latents" in Final(data, st4)
    ensures Final(data, st4)["latents"] == Latents(data, st4).metadata["latents"]
  {
    assert "latents" != "input_encoding_dim" && "latents" != "activations";
  }

  /** Everything after `z_dim` succeeds exactly when every present
      optional numeric field converts and the latents build a tensor. */
  lemma AfterZDimOk(data: Block, st: Decoding)
    ensures AfterZDim(data, st).Ok?
            <==> (forall k :: k in IntKeys && k in data ==> IntOf(data[k]).Ok?)
                 && (forall k :: k in FloatKeys && k in data ==> FloatOf(data[k]).Ok?)
                 && LatentsValue(data).Ok?
  {
    OptionalOk(IntKeys, IntKind, data, st);
    var s2 := Optional(IntKeys, IntKind, data, st);
    if s2.Ok? {
      OptionalKeys(IntKeys, IntKind, data, st);
      assert "input_encoding_dim" in IntKeys;
      AfterIntsOk(data, s2.value);
    }
  }

  lemma AfterIntsOk(data: Block, st: Decoding)
    requires "input_encoding_dim" in st.metadata
    ensures AfterInts(data, st).Ok?
            <==> (forall k :: k in FloatKeys && k in data ==> FloatOf(data[k]).Ok?) && LatentsValue(data).Ok?
  {
    OptionalOk(FloatKeys, FloatKind, data, st);
    var s3 := Optional(FloatKeys, FloatKind, data, st);
    if s3.Ok? {
      OptionalKeys(FloatKeys, FloatKind, data, st);
      AfterFloatsOk(data, s3.value);
    }
  }

  /** The string fields cannot fail; the latents can. */
  lemma AfterFloatsOk(data: Block, st: Decoding)
    requires "input_encoding_dim" in st.metadata
    ensures AfterFloats(data, st).Ok? <==> LatentsValue(data).Ok?
  {
    OptionalOk(StrKeys, RawKind, data, st);
    OptionalKeys(StrKeys, RawKind, data, st);
    assert "activations" in StrKeys;
    var s4 := Optional(StrKeys, RawKind, data, st).value;
    assert "input_encoding_dim" in s4.metadata && "activations" in s4.metadata;
  }

  /** A block decodes exactly when it is `Decodable`. */
  lemma DecodeSucceeds(data: Block)
    ensures Decode(data).Ok? <==> Decodable(data)
  {
    RequiredOk(RequiredKeys, data, map[]);
    RequiredKeysDistinct();
    var m := Required(RequiredKeys, data, map[]);
    if m.Ok? {
      var zSource := if "z_dim" in data then data["z_dim"] else data["x_dim"];
      if IntOf(zSource).Ok? {
        AfterZDimOk(data, Decoding(m.value["z_dim" := PyInt(IntOf(zSource).value)], []));
      }
    }
  }

  /** `load_tif_metadata(path)` as a function of the filesystem. */
  function LoadSpec(nodes: Nodes, path: string): Result<Loaded, PyError> {
    if path !in nodes || !nodes[path].File? then Err(AssertionError(path + " not found"))
    else
      match nodes[path].data
      case TiffFile(frame, Some(block)) =>
        var d :- Decode(block);
        Ok(Loaded(Some(frame), Some(d.metadata), d.warnings))
      case _ => Ok(Loaded(None, None, [CouldNotLoad(path)]))
  }

  /** `load_tif_metadata(path)`: asserts the path is a file, reads the
      TIFF (a file that is not a TIFF with a metadata block gives
      `(None, None)`), then fills the dictionary key by key. */
  method LoadTifMetadata(nodes: Nodes, path: string) returns (r: Result<Loaded, PyError>)
    ensures r == LoadSpec(nodes, path)
    ensures (path !in nodes || !nodes[path].File?) <==> r.Err? && r.error.AssertionError?
    ensures r.Err? && !r.error.AssertionError? ==> DecodeError(r.error)
    ensures path in nodes && nodes[path].File? && !(nodes[path].data.TiffFile? && nodes[path].data.block.Some?)
            ==> r == Ok(Loaded(None, None, [CouldNotLoad(path)]))
    ensures r.Ok? ==> (r.value.image.Some? <==> r.value.metadata.Some?)
  {
    if path !in nodes || !nodes[path].File? {
      return Err(AssertionError(path + " not found"));
    }
    if !(nodes[path].data.TiffFile? && nodes[path].data.block.Some?) {
      return Ok(Loaded(None, None, [CouldNotLoad(path)]));
    }
    var img := nodes[path].data.frame;
    var data := nodes[path].data.block.value;
    var decoded := DecodeBlock(data);
    if decoded.Err? {
      DecodeErrors(data);
      return Err(decoded.error);
    }
    r := Ok(Loaded(Some(img), Some(decoded.value.metadata), decoded.value.warnings));
  }

  /** The body of `load_tif_metadata` after the file is read: the required
      fields, `z_dim`, three loops over the optional keys, the latents and
      the two normalisations, filling one dictionary in place. */
  method DecodeBlock(data: Block) returns (r: Result<Decoding, PyError>)
    ensures r == Decode(data)
  {
    var required := Required(RequiredKeys, data, map[]);
    if required.Err? {
      return Err(required.error);
    }
    var metadata := required.value;
    var warnings: seq<Warning> := [];
    var zSource := if "z_dim" in data then Ok(data["z_dim"]) else Get(data, "x_dim");
    if zSource.Err? {
      return Err(zSource.error);
    }
    var z := IntOf(zSource.value);
    if z.Err? {
      return Err(z.error);
    }
    metadata := metadata["z_dim" := PyInt(z.value)];
    assert Decode(data) == AfterZDim(data, Decoding(metadata, warnings));

    ghost var st0 := Decoding(metadata, warnings);
    var i := 0;
    while i < |IntKeys|
      invariant 0 <= i <= |IntKeys|
      invariant Optional(IntKeys, IntKind, data, st0) == Optional(IntKeys[i..], IntKind, data, Decoding(metadata, warnings))
    {
      var k := IntKeys[i];
      if k in data {
        var c := Convert(IntKind, data[k]);
        if c.Err? {
          return Err(c.error);
        }
        metadata := metadata[k := c.value];
      } else {
        metadata := metadata[k := PyNone];
        warnings := warnings + [MissingKey(k)];
      }
      i := i + 1;
    }
    assert Decode(data) == AfterInts(data, Decoding(metadata, warnings));

    st0 := Decoding(metadata, warnings);
    i := 0;
    while i < |FloatKeys|
      invariant 0 <= i <= |FloatKeys|
      invariant Optional(FloatKeys, FloatKind, data, st0) == Optional(FloatKeys[i..], FloatKind, data, Decoding(metadata, warnings))
    {
      var k := FloatKeys[i];
      if k in data {
        var c := Convert(FloatKind, data[k]);
        if c.Err? {
          return Err(c.error);
        }
        metadata := metadata[k := c.value];
      } else {
        metadata := metadata[k := PyNone];
        warnings := warnings + [MissingKey(k)];
      }
      i := i + 1;
    }
    assert Decode(data) == AfterFloats(data, Decoding(metadata, warnings));

    st0 := Decoding(metadata, warnings);
    i := 0;
    while i < |StrKeys|
      invariant 0 <= i <= |StrKeys|
      invariant Optional(StrKeys, RawKind, data, st0) == Optional(StrKeys[i..], RawKind, data, Decoding(metadata, warnings))
    {
      var k := StrKeys[i];
      if k in data {
        metadata := metadata[k := data[k]];
      } else {
        metadata := metadata[k := PyNone];
        warnings := warnings + [MissingKey(k)];
      }
      i := i + 1;
    }
    assert Decode(data) == Finish(data, Decoding(metadata, warnings));

    if "latents" in data {
      var t := TensorOf(data["latents"]);
      if t.Err? {
        return Err(t.error);
      }
      metadata := metadata["latents" := t.value];
    } else if "latent" in data {
      var t := NewTensorOf(data["latent"]);
      if t.Err? {
        return Err(t.error);
      }
      metadata := metadata["latents" := t.value];
      warnings := warnings + [LegacyLatent];
    } else {
      metadata := metadata["latents" := PyNone];
      warnings := warnings + [MissingKey("latents")];
    }

    var enc := Get(metadata, "input_encoding_dim");
    if enc.Err? {
      return Err(enc.error);
    }
    if enc.value == PyNone {
      metadata := metadata["input_encoding_dim" := PyInt(1)];
    }
    var act := Get(metadata, "activations");
    if act.Err? {
      return Err(act.error);
    }
    if act.value == PyStr("basic") {
      metadata := metadata["activations" := PyStr("fixed")];
    }
    r := Ok(Decoding(metadata, warnings));
  }
}

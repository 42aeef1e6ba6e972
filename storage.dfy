/** Frames, encoded images and the filesystem they are written to. Codecs
    are not interpreted: a written file records what was handed to the
    encoder (the pixels, the colour conversion applied, the metadata). */
module Storage {
  import opened Python

  newtype byte = x: int | 0 <= x < 256

  /** A numpy array of unsigned bytes: its shape and its elements in
      row-major order. */
  datatype Frame = Frame(shape: seq<nat>, pixels: seq<byte>)

  /** The OpenCV colour conversions `image_colormaps` applies. */
  datatype Conversion = RgbToHsv | RgbToGray | RgbToLab | RgbToHls | RgbToLuv | GrayToRgb

  /** An image handed to a raster encoder: a frame as it is, or the result
      of a colour conversion applied to another image. */
  datatype Pixels = Plain(frame: Frame) | Converted(conversion: Conversion, source: Pixels)

  /** A metadata block: the JSON dictionary stored in a TIFF file. */
  type Block = map<string, PyValue>

  datatype FileData =
    | RasterFile(image: Pixels)
    | TiffFile(frame: Frame, block: Option<Block>)

  /** What is at a path: a regular file, a directory, or something else
      (a socket, a device) that exists but is neither. */
  datatype Node = File(data: FileData) | Directory | Special

  type Nodes = map<string, Node>

  /** The effect of writing the files `ws` in order: later writes to the
      same name replace earlier ones. */
  function ApplyWrites(nodes: Nodes, ws: seq<(string, FileData)>): (r: Nodes)
    ensures r.Keys == nodes.Keys + set w | w in ws :: w.0
    ensures forall p :: p in nodes && (forall w :: w in ws ==> w.0 != p) ==> r[p] == nodes[p]
    decreases |ws|
  {
    if ws == [] then nodes
    else ApplyWrites(nodes, ws[..|ws| - 1])[ws[|ws| - 1].0 := File(ws[|ws| - 1].1)]
  }

  lemma {:induction false} ApplyWritesAppend(nodes: Nodes, ws: seq<(string, FileData)>, more: seq<(string, FileData)>)
    ensures ApplyWrites(nodes, ws + more) == ApplyWrites(ApplyWrites(nodes, ws), more)
    decreases |more|
  {
    if more != [] {
      assert (ws + more)[..|ws + more| - 1] == ws + more[..|more| - 1];
      ApplyWritesAppend(nodes, ws, more[..|more| - 1]);
    } else {
      assert ws + more == ws;
    }
  }

  /** Writes to other names leave a file as it was. */
  lemma WritesElsewhere(nodes: Nodes, ws: seq<(string, FileData)>, more: seq<(string, FileData)>, p: string)
    requires p in ApplyWrites(nodes, ws)
    requires forall w :: w in more ==> w.0 != p
    ensures p in ApplyWrites(nodes, ws + more)
    ensures ApplyWrites(nodes, ws + more)[p] == ApplyWrites(nodes, ws)[p]
  {
    ApplyWritesAppend(nodes, ws, more);
  }

  /** The last write to a name is what the name holds. */
  lemma LastWriteWins(nodes: Nodes, ws: seq<(string, FileData)>)
    requires |ws| > 0
    ensures ws[|ws| - 1].0 in ApplyWrites(nodes, ws)
    ensures ApplyWrites(nodes, ws)[ws[|ws| - 1].0] == File(ws[|ws| - 1].1)
  {
  }

  /** The filesystem the runner reads and writes. */
  class Disk {
    var nodes: Nodes

    constructor (initial: Nodes)
      ensures nodes == initial
    {
      nodes := initial;
    }

    /** Writes the files `ws` in order. */
    method WriteAll(ws: seq<(string, FileData)>)
      modifies this
      ensures nodes == ApplyWrites(old(nodes), ws)
    {
      var i := 0;
      ghost var start := nodes;
      while i < |ws|
        invariant 0 <= i <= |ws|
        invariant nodes == ApplyWrites(start, ws[..i])
      {
        assert ws[..i + 1][..i] == ws[..i];
        nodes := nodes[ws[i].0 := File(ws[i].1)];
        i := i + 1;
      }
      assert ws[..i] == ws;
    }
  }
}

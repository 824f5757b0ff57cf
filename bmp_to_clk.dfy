// The clock-face converter (tools/conv-bmp-to-clk.py): every .bmp file of a
// folder becomes a .clk file holding a 6-byte header and the pixels in RGB565.
// Image decoding and the filesystem are parameters: `load` gives the RGB image
// of a path, and the bytes written to each output file are returned.

module BmpToClk {
  import opened Ascii
  import opened PyText
  import opened Seqs

  /** A byte of the output file. */
  type Byte = b: int | 0 <= b < 256

  /** A colour channel as PIL gives it in RGB mode. */
  type Channel = c: int | 0 <= c < 256

  datatype Rgb = Rgb(r: Channel, g: Channel, b: Channel)

  /** An RGB image as PIL presents it: its size and `pixels[x, y]`. */
  datatype Image = Image(width: nat, height: nat, pixel: (nat, nat) -> Rgb)

  /**
   * The RGB888 to RGB565 packing `((R & 0xF8) << 8) | ((G & 0xFC) << 3) | (B >> 3)`.
   * On channels below 256 the masks keep the top 5, 6 and 5 bits, the shifted
   * fields occupy the disjoint bits 15..11, 10..5 and 4..0, and so the bitwise
   * or is the sum written here.
   */
  function Pack(c: Rgb): (p: nat)
    ensures p < 0x1_0000
  {
    (c.r / 8) * 2048 + (c.g / 4) * 32 + c.b / 8
  }

  /** Decoding the three fields of a packed pixel gives back the kept high bits of each channel. */
  lemma PackDecode(c: Rgb)
    ensures Pack(c) / 2048 == c.r / 8
    ensures Pack(c) / 32 % 64 == c.g / 4
    ensures Pack(c) % 32 == c.b / 8
  {
    var p := Pack(c);
    var r5, g6, b5 := c.r / 8, c.g / 4, c.b / 8;
    assert p == r5 * 2048 + (g6 * 32 + b5) && g6 * 32 + b5 < 2048;
    assert p == (r5 * 64 + g6) * 32 + b5;
    assert p / 32 == r5 * 64 + g6;
  }

  /** `n.to_bytes(2, "little")` for an n that fits: the two bytes reassemble n. */
  function LittleEndian16(n: nat): (bs: seq<Byte>)
    requires n < 0x1_0000
    ensures |bs| == 2 && bs[0] as int + 256 * bs[1] as int == n
  {
    [n % 256, n / 256]
  }

  function PixelBytes(c: Rgb): (bs: seq<Byte>)
    ensures |bs| == 2 && bs[0] as int + 256 * bs[1] as int == Pack(c)
  {
    LittleEndian16(Pack(c))
  }

  /** The first w pixels of row y, left to right. */
  function RowBytes(img: Image, y: nat, w: nat): (bs: seq<Byte>)
    ensures |bs| == 2 * w
  {
    if w == 0 then [] else RowBytes(img, y, w - 1) + PixelBytes(img.pixel(w - 1, y))
  }

  /** The first h rows, top to bottom. */
  function RowsBytes(img: Image, h: nat): seq<Byte>
  {
    if h == 0 then [] else RowsBytes(img, h - 1) + RowBytes(img, h - 1, img.width)
  }

  const MAGIC: seq<Byte> := [0x43, 0x4B] // b"C", b"K"

  /** What ends up in the output file, and whether the conversion ran to the end. */
  datatype ClkOutput = ClkOutput(bytes: seq<Byte>, complete: bool)

  /**
   * The file `convert_bmp_to_clk` writes for one image. A dimension of 65536
   * or more makes `to_bytes(2, ...)` raise after the bytes before it were written.
   */
  function Clk(img: Image): ClkOutput
  {
    if img.width >= 0x1_0000 then ClkOutput(MAGIC, false)
    else if img.height >= 0x1_0000 then ClkOutput(MAGIC + LittleEndian16(img.width), false)
    else ClkOutput(MAGIC + LittleEndian16(img.width) + LittleEndian16(img.height) + RowsBytes(img, img.height), true)
  }

  /** The nested y/x loops writing one image: header, then row-major pixels. */
  method WriteClk(img: Image) returns (out: seq<Byte>, complete: bool)
    ensures ClkOutput(out, complete) == Clk(img)
  {
    out := MAGIC;
    if img.width >= 0x1_0000 {
      return out, false;
    }
    out := out + LittleEndian16(img.width);
    if img.height >= 0x1_0000 {
      return out, false;
    }
    out := out + LittleEndian16(img.height);
    ghost var header := out;
    var y := 0;
    while y < img.height
      invariant 0 <= y <= img.height
      invariant out == header + RowsBytes(img, y)
    {
      var x := 0;
      while x < img.width
        invariant 0 <= x <= img.width
        invariant out == header + RowsBytes(img, y) + RowBytes(img, y, x)
      {
        out := out + PixelBytes(img.pixel(x, y));
        x := x + 1;
      }
      y := y + 1;
    }
    complete := true;
  }

  lemma {:induction false} RowsBytesLength(img: Image, h: nat)
    ensures |RowsBytes(img, h)| == 2 * img.width * h
  {
    if h > 0 {
      RowsBytesLength(img, h - 1);
      assert 2 * img.width * h == 2 * img.width * (h - 1) + 2 * img.width;
    }
  }

  /** A complete file is the 6 header bytes and two bytes per pixel. */
  lemma ClkLength(img: Image)
    requires Clk(img).complete
    ensures |Clk(img).bytes| == 6 + 2 * img.width * img.height
  {
    RowsBytesLength(img, img.height);
  }

  /** Pixel x of a row sits at offset 2x within the row. */
  lemma {:induction false} RowBytesAt(img: Image, y: nat, w: nat, x: nat)
    requires x < w
    ensures RowBytes(img, y, w)[2 * x] == PixelBytes(img.pixel(x, y))[0]
    ensures RowBytes(img, y, w)[2 * x + 1] == PixelBytes(img.pixel(x, y))[1]
  {
    if x < w - 1 {
      RowBytesAt(img, y, w - 1, x);
    }
  }

  /** Offset of row y in the pixel data, counted row by row. */
  ghost function RowStart(y: nat, w: nat): nat
  {
    if y == 0 then 0 else RowStart(y - 1, w) + 2 * w
  }

  lemma {:induction false} RowStartProduct(y: nat, w: nat)
    ensures RowStart(y, w) == 2 * (y * w)
  {
    if y > 0 {
      RowStartProduct(y - 1, w);
      assert (y - 1) * w + w == y * w;
    }
  }

  lemma {:induction false} RowsBytesSize(img: Image, h: nat)
    ensures |RowsBytes(img, h)| == RowStart(h, img.width)
  {
    if h > 0 {
      RowsBytesSize(img, h - 1);
    }
  }

  /** The first z rows are a prefix of the first h rows. */
  lemma {:induction false} RowsBytesPrefix(img: Image, z: nat, h: nat)
    requires z <= h
    ensures |RowsBytes(img, z)| <= |RowsBytes(img, h)|
    ensures RowsBytes(img, h)[..|RowsBytes(img, z)|] == RowsBytes(img, z)
  {
    if z < h {
      RowsBytesPrefix(img, z, h - 1);
      TakeOfAppend(RowsBytes(img, h - 1), RowBytes(img, h - 1, img.width), |RowsBytes(img, z)|);
    }
  }

  /** Row y of the image sits at offset RowStart(y) of the first h rows. */
  lemma RowsBytesRow(img: Image, h: nat, y: nat, j: nat)
    requires y < h && j < 2 * img.width
    ensures RowStart(y, img.width) + j < |RowsBytes(img, h)|
    ensures RowsBytes(img, h)[RowStart(y, img.width) + j] == RowBytes(img, y, img.width)[j]
  {
    var front, row, all := RowsBytes(img, y), RowBytes(img, y, img.width), RowsBytes(img, h);
    assert |front| == RowStart(y, img.width) by {
      RowsBytesSize(img, y);
    }
    assert |front + row| <= |all| && all[..|front + row|] == front + row by {
      RowsBytesPrefix(img, y + 1, h);
      assert RowsBytes(img, y + 1) == front + row;
    }
    PrefixAt(all, front, row, j);
  }

  /** Pixel (x, y) sits at offset 2x of row y, which starts at RowStart(y) = 2yW. */
  lemma RowsBytesAt(img: Image, h: nat, x: nat, y: nat)
    requires x < img.width && y < h
    ensures RowStart(y, img.width) == 2 * (y * img.width)
    ensures RowStart(y, img.width) + 2 * x + 1 < |RowsBytes(img, h)|
    ensures RowsBytes(img, h)[RowStart(y, img.width) + 2 * x] == PixelBytes(img.pixel(x, y))[0]
    ensures RowsBytes(img, h)[RowStart(y, img.width) + 2 * x + 1] == PixelBytes(img.pixel(x, y))[1]
  {
    RowStartProduct(y, img.width);
    RowsBytesRow(img, h, y, 2 * x);
    RowsBytesRow(img, h, y, 2 * x + 1);
    RowBytesAt(img, y, img.width, x);
  }

  /** A complete file is the 6 header bytes followed by the pixel data. */
  lemma ClkLayout(img: Image)
    requires Clk(img).complete
    ensures Clk(img).bytes[..6] == MAGIC + LittleEndian16(img.width) + LittleEndian16(img.height)
    ensures Clk(img).bytes[6..] == RowsBytes(img, img.height)
  {
  }

  /**
   * The two bytes at offset 6 + 2(yW + x) are those of pixel (x, y), which
   * reassemble to its RGB565 value: the file holds every pixel in row-major order.
   */
  lemma ClkPixelAt(img: Image, x: nat, y: nat, at: nat)
    requires Clk(img).complete && x < img.width && y < img.height && at == 6 + 2 * (y * img.width + x)
    ensures at + 1 < |Clk(img).bytes|
    ensures Clk(img).bytes[at] == PixelBytes(img.pixel(x, y))[0]
    ensures Clk(img).bytes[at + 1] == PixelBytes(img.pixel(x, y))[1]
  {
    var bs := Clk(img).bytes;
    var rows := RowsBytes(img, img.height);
    var i := RowStart(y, img.width) + 2 * x;
    RowsBytesAt(img, img.height, x, y);
    assert at == 6 + i;
    ClkLayout(img);
    AfterHeader(bs, rows, i);
  }

  lemma AfterHeader(bs: seq<Byte>, rows: seq<Byte>, i: nat)
    requires |bs| >= 6 && bs[6..] == rows && i + 1 < |rows|
    ensures 6 + i + 1 < |bs| && bs[6 + i] == rows[i] && bs[6 + i + 1] == rows[i + 1]
  {
    assert bs[6..][i] == bs[6 + i];
    assert bs[6..][i + 1] == bs[6 + i + 1];
  }

  // ---- file names ------------------------------------------------------------------

  /** `f.lower().endswith(".bmp")` */
  predicate IsBmpName(f: string) { EndsWith(Lower(f), ".bmp") }

  /** The list comprehension that selects the .bmp names, in listing order. */
  function BmpFiles(names: seq<string>): (fs: seq<string>)
    ensures forall k :: 0 <= k < |fs| ==> IsBmpName(fs[k]) && fs[k] in names
    ensures forall f :: f in names && IsBmpName(f) ==> f in fs
  {
    if names == [] then []
    else (if IsBmpName(names[0]) then [names[0]] else []) + BmpFiles(names[1..])
  }

  /** Index of the last occurrence of c in s, if any. */
  function LastIndex(s: string, c: char): (i: int)
    ensures -1 <= i < |s|
    ensures i >= 0 ==> s[i] == c
    ensures forall j :: i < j < |s| ==> s[j] != c
  {
    if s == [] then -1 else if s[|s| - 1] == c then |s| - 1 else LastIndex(s[..|s| - 1], c)
  }

  /**
   * `os.path.splitext(f)[0]`: cut at the last dot of the last path component,
   * unless everything before that dot in the component is dots.
   */
  function SplitextRoot(f: string): string
  {
    var sep := LastIndex(f, '/');
    var dot := LastIndex(f, '.');
    if dot > sep && exists j :: sep < j < dot && f[j] != '.' then f[..dot] else f
  }

  function ClkName(f: string): string { SplitextRoot(f) + ".clk" }

  /**
   * A listed .bmp name loses its 4-character extension, unless the part before
   * it is empty or all dots: then the whole name is kept (".bmp" gives ".bmp.clk").
   */
  lemma ClkNameOfBmp(f: string)
    requires IsBmpName(f) && '/' !in f
    ensures var stem := f[..|f| - 4];
      ClkName(f) == (if exists j :: 0 <= j < |stem| && stem[j] != '.' then stem else f) + ".clk"
  {
    var n := |f| - 4;
    assert Lower(f)[n] == '.';
    assert f[n] == '.';
    assert Lower(f)[n + 1..] == "bmp";
    forall j | n < j < |f| ensures f[j] != '.' {
      assert Lower(f)[j] == ToLower(f[j]);
      assert Lower(f)[j] == "bmp"[j - n - 1];
    }
    assert LastIndex(f, '.') == n;
    assert LastIndex(f, '/') == -1;
  }

  /** For each selected name, its output path and what converting its image writes. */
  function Planned(outputFolder: string, inputFolder: string, files: seq<string>, load: string -> Image)
    : (plan: seq<(string, ClkOutput)>)
    ensures |plan| == |files|
  {
    seq(|files|, k requires 0 <= k < |files| =>
      (PathJoin(outputFolder, ClkName(files[k])), Clk(load(PathJoin(inputFolder, files[k])))))
  }

  /** The files on disk after a run, and whether the run went through all names. */
  datatype Written = Written(files: seq<(string, seq<Byte>)>, complete: bool)

  /** Convert in order; the first image that cannot be encoded leaves its partial file and stops the run. */
  function RunUntilFailure(plan: seq<(string, ClkOutput)>): Written
  {
    if plan == [] then Written([], true)
    else if !plan[0].1.complete then Written([(plan[0].0, plan[0].1.bytes)], false)
    else
      var rest := RunUntilFailure(plan[1..]);
      Written([(plan[0].0, plan[0].1.bytes)] + rest.files, rest.complete)
  }

  /** One step of the run, from position i of the plan. */
  lemma RunStep(plan: seq<(string, ClkOutput)>, i: nat)
    requires i < |plan|
    ensures var entry := (plan[i].0, plan[i].1.bytes);
      RunUntilFailure(plan[i..]) ==
        if !plan[i].1.complete then Written([entry], false)
        else Written([entry] + RunUntilFailure(plan[i + 1..]).files, RunUntilFailure(plan[i + 1..]).complete)
  {
    assert plan[i..][0] == plan[i] && plan[i..][1..] == plan[i + 1..];
  }

  /** The loop over the selected names. */
  method ConvertFiles(inputFolder: string, outputFolder: string, files: seq<string>, load: string -> Image)
    returns (written: seq<(string, seq<Byte>)>, complete: bool)
    ensures Written(written, complete) == RunUntilFailure(Planned(outputFolder, inputFolder, files, load))
  {
    ghost var plan := Planned(outputFolder, inputFolder, files, load);
    written := [];
    var i := 0;
    while i < |files|
      invariant 0 <= i <= |files|
      invariant RunUntilFailure(plan).files == written + RunUntilFailure(plan[i..]).files
      invariant RunUntilFailure(plan).complete == RunUntilFailure(plan[i..]).complete
    {
      var img := load(PathJoin(inputFolder, files[i]));
      var path := PathJoin(outputFolder, ClkName(files[i]));
      var bytes, ok := WriteClk(img);
      assert plan[i] == (path, ClkOutput(bytes, ok));
      RunStep(plan, i);
      ghost var rest := RunUntilFailure(plan[i + 1..]);
      ghost var before := written;
      written := written + [(path, bytes)];
      if !ok {
        assert RunUntilFailure(plan[i..]).files == [(path, bytes)];
        return written, false;
      }
      AppendAssoc(before, [(path, bytes)], rest.files);
      i := i + 1;
    }
    assert plan[i..] == [];
    complete := true;
  }

  /**
   * `convert_bmp_to_clk`: each selected name in turn becomes `<out>/<root>.clk`;
   * an image that cannot be encoded ends the run after its partial file. With
   * no selected name nothing is written.
   */
  method ConvertFolder(inputFolder: string, outputFolder: string, names: seq<string>, load: string -> Image)
    returns (written: seq<(string, seq<Byte>)>, complete: bool)
    ensures Written(written, complete) == RunUntilFailure(Planned(outputFolder, inputFolder, BmpFiles(names), load))
  {
    var files := BmpFiles(names);
    if files == [] {
      return [], true;
    }
    written, complete := ConvertFiles(inputFolder, outputFolder, files, load);
  }

  /**
   * The files written are the plan's, in order, up to and including the first
   * failure; the run is complete exactly when every image fits, and then there
   * is one complete file per selected name.
   */
  lemma {:induction false} RunUntilFailureSpec(plan: seq<(string, ClkOutput)>)
    ensures var w := RunUntilFailure(plan);
      && |w.files| <= |plan|
      && (forall k :: 0 <= k < |w.files| ==> w.files[k] == (plan[k].0, plan[k].1.bytes))
      && (forall k :: 0 <= k < |w.files| - 1 ==> plan[k].1.complete)
      && (w.complete <==> forall k :: 0 <= k < |plan| ==> plan[k].1.complete)
      && (w.complete ==> |w.files| == |plan|)
      && (!w.complete ==> w.files != [] && !plan[|w.files| - 1].1.complete)
    decreases |plan|
  {
    if plan != [] && plan[0].1.complete {
      RunUntilFailureSpec(plan[1..]);
      assert forall k :: 0 < k < |plan| ==> plan[1..][k - 1] == plan[k];
    }
  }
}

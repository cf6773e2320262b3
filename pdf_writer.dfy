/**
  SimplePdfGenerator.GeneratePdf: one page per uploaded file, a JPEG drawn
  as an image, anything else as text. Objects are numbered 1 (catalog),
  2 (page tree), 3 (font), then a page and a content stream per file and
  an image object per JPEG; they are written in number order behind the
  header, followed by the cross-reference table and the trailer
  (sections 7.5.2 to 7.5.5 of ISO 32000-1).
*/
module PdfWriter {
  import opened Util
  import opened Jpeg
  import PdfText

  const CatalogId: nat := 1
  const PagesRootId: nat := 2
  const FontId: nat := 3
  const FirstFileId: nat := 4

  /** Encoding.ASCII.GetBytes on one character: anything above 0x7F becomes '?'. */
  function AsciiByte(c: char): Byte
  {
    if c as int < 128 then c as int else '?' as int
  }

  /** Encoding.ASCII.GetBytes: one byte per character. */
  function Ascii(s: string): (r: seq<Byte>)
    ensures |r| == |s|
  {
    seq(|s|, i requires 0 <= i < |s| => AsciiByte(s[i]))
  }

  /**
    The page dimensions in points: A4 (595 by 842) unless the size is
    "Letter" (612 by 792), and turned on its side for "Landscape".
  */
  function PageSize(pageSize: string, orientation: string): (s: (nat, nat))
    ensures {s.0, s.1} == if pageSize == "Letter" then {612, 792} else {595, 842}
    ensures s.0 > s.1 <==> orientation == "Landscape"
  {
    var (w, h) := if pageSize == "Letter" then (612, 792) else (595, 842);
    if orientation == "Landscape" then (h, w) else (w, h)
  }

  /** The extension test, on the lower-cased extension. */
  predicate IsImage(ext: string)
  {
    ext == ".jpg" || ext == ".jpeg"
  }

  /**
    One uploaded file: its extension as Path.GetExtension gives it, its
    bytes, and the text read from it (the document text for .docx, the
    decoded file otherwise), which matters only for text pages.
  */
  datatype Upload = Upload(ext: string, data: seq<Byte>, text: string)

  predicate IsJpeg(f: Upload)
  {
    IsImage(ToLower(f.ext))
  }

  /** Where the image is drawn: the scaled size and the lower-left corner. */
  datatype Placement = Placement(width: int, height: int, x: int, y: int)

  /** The floating-point fit of an image of the given size on a page of the given size. */
  type Fit = (nat, nat, nat, nat) -> Placement

  /**
    The content stream of a text page made from the file's text. The
    layout is stated for any such function; the generator uses
    PdfText.FormattedText.
  */
  type Format = string -> string


  /**
    An object of the file as the build loop makes it. The source stores
    each body already encoded; here the object table keeps what the body
    says, and Encode gives the bytes the source stores for it.
  */
  /**
    How an object's body becomes bytes. The writer is stated for any such
    function; the generator passes Encode.
  */
  type Encoder = PdfObject -> seq<Byte>

  datatype PdfObject =
    | Font
    | Image(width: nat, height: nat, data: seq<Byte>)
    | ImageContent(placement: Placement, imgId: nat)
    | TextContent(content: string)
    | ImagePage(pgW: nat, pgH: nat, contentId: nat, imgId: nat)
    | TextPage(pgW: nat, pgH: nat, contentId: nat)
    | Catalog
    | Pages(kids: seq<nat>)

  function FontDict(): string
  {
    "<< /Type /Font /Subtype /Type1 /BaseFont /Helvetica >>"
  }

  /** The image dictionary up to the start of the stream data. */
  function ImageHeader(w: nat, h: nat, len: nat): string
  {
    "<< /Type /XObject /Subtype /Image /Width " + NatToString(w) + " /Height " + NatToString(h)
      + " /ColorSpace /DeviceRGB /BitsPerComponent 8 /Filter /DCTDecode /Length " + NatToString(len)
      + " >>\nstream\n"
  }

  /** A content stream object: its length in characters, then the operators. */
  function StreamDict(content: string): string
  {
    "<< /Length " + NatToString(|content|) + " >>\nstream\n" + content + "\nendstream"
  }

  /** Draw image imgId scaled and placed as p, inside its own graphics state. */
  function DrawImage(p: Placement, imgId: nat): string
  {
    "q " + IntToString(p.width) + " 0 0 " + IntToString(p.height) + " " + IntToString(p.x) + " "
      + IntToString(p.y) + " cm /Im" + NatToString(imgId) + " Do Q"
  }

  function PageDict(pgW: nat, pgH: nat, contentId: nat): string
  {
    "<< /Type /Page /Parent " + NatToString(PagesRootId) + " 0 R /MediaBox [0 0 " + NatToString(pgW) + " "
      + NatToString(pgH) + "] /Contents " + NatToString(contentId) + " 0 R"
  }

  function ImagePageDict(pgW: nat, pgH: nat, contentId: nat, imgId: nat): string
  {
    PageDict(pgW, pgH, contentId) + " /Resources << /XObject << /Im" + NatToString(imgId) + " "
      + NatToString(imgId) + " 0 R >> >> >>"
  }

  function TextPageDict(pgW: nat, pgH: nat, contentId: nat): string
  {
    PageDict(pgW, pgH, contentId) + " /Resources << /Font << /F1 " + NatToString(FontId) + " 0 R >> >> >>"
  }

  function CatalogDict(): string
  {
    "<< /Type /Catalog /Pages " + NatToString(PagesRootId) + " 0 R >>"
  }

  function Ref(id: nat): string
  {
    NatToString(id) + " 0 R"
  }

  function Kids(ids: seq<nat>): (kids: seq<string>)
    ensures |kids| == |ids|
    ensures forall k :: 0 <= k < |ids| ==> kids[k] == Ref(ids[k])
  {
    seq(|ids|, k requires 0 <= k < |ids| => Ref(ids[k]))
  }

  function PagesDict(pageIds: seq<nat>): string
  {
    "<< /Type /Pages /Kids [" + Join(Kids(pageIds), " ") + "] /Count " + NatToString(|pageIds|) + " >>"
  }

  /** The bytes of an object body: its dictionary in ASCII, with the JPEG data copied in unchanged. */
  function Encode(o: PdfObject): seq<Byte>
  {
    match o
    case Font => Ascii(FontDict())
    case Image(w, h, data) => Ascii(ImageHeader(w, h, |data|)) + data + Ascii("\nendstream")
    case ImageContent(p, imgId) => Ascii(StreamDict(DrawImage(p, imgId)))
    case TextContent(content) => Ascii(StreamDict(content))
    case ImagePage(pgW, pgH, contentId, imgId) => Ascii(ImagePageDict(pgW, pgH, contentId, imgId))
    case TextPage(pgW, pgH, contentId) => Ascii(TextPageDict(pgW, pgH, contentId))
    case Catalog => Ascii(CatalogDict())
    case Pages(kids) => Ascii(PagesDict(kids))
  }

  /** The objects built before writing: bodies by object number, the page numbers, the next free number. */
  datatype Layout = Layout(bodies: map<nat, PdfObject>, pageIds: seq<nat>, next: nat)

  function StartLayout(): Layout
  {
    Layout(map[FontId := Font], [], FirstFileId)
  }

  /** The page of a JPEG: image object, content stream drawing it, page object. */
  function AddImage(l: Layout, f: Upload, pgW: nat, pgH: nat, fit: Fit): Layout
  {
    var pageId, contentId, imgId := l.next, l.next + 1, l.next + 2;
    var (w, h) := JpegDimensions(f.data);
    var body1 := l.bodies[imgId := Image(w, h, f.data)];
    var body2 := body1[contentId := ImageContent(fit(w, h, pgW, pgH), imgId)];
    Layout(body2[pageId := ImagePage(pgW, pgH, contentId, imgId)], l.pageIds + [pageId], l.next + 3)
  }

  /** The page of any other file: its text as a content stream, and the page object. */
  function AddText(l: Layout, f: Upload, pgW: nat, pgH: nat, format: Format): Layout
  {
    var pageId, contentId := l.next, l.next + 1;
    var body1 := l.bodies[contentId := TextContent(format(f.text))];
    Layout(body1[pageId := TextPage(pgW, pgH, contentId)], l.pageIds + [pageId], l.next + 2)
  }

  function AddFile(l: Layout, f: Upload, pgW: nat, pgH: nat, fit: Fit, format: Format): Layout
  {
    if IsJpeg(f) then AddImage(l, f, pgW, pgH, fit) else AddText(l, f, pgW, pgH, format)
  }

  /** The objects after the build loop has seen the given files. */
  function LayoutOf(files: seq<Upload>, pgW: nat, pgH: nat, fit: Fit, format: Format): Layout
  {
    if |files| == 0 then StartLayout()
    else AddFile(LayoutOf(files[..|files| - 1], pgW, pgH, fit, format), files[|files| - 1], pgW, pgH, fit, format)
  }

  /** How many numbers a file takes: page and content stream, and the image of a JPEG. */
  function Span(f: Upload): nat
  {
    if IsJpeg(f) then 3 else 2
  }

  /** The objects of file f when its page is numbered p, in number order. */
  function FileObjects(f: Upload, p: nat, pgW: nat, pgH: nat, fit: Fit, format: Format): (objs: seq<PdfObject>)
    ensures |objs| == Span(f)
  {
    if IsJpeg(f) then
      var (w, h) := JpegDimensions(f.data);
      [ImagePage(pgW, pgH, p + 1, p + 2), ImageContent(fit(w, h, pgW, pgH), p + 2), Image(w, h, f.data)]
    else
      [TextPage(pgW, pgH, p + 1), TextContent(format(f.text))]
  }

  function ObjectCount(files: seq<Upload>): nat
  {
    if |files| == 0 then 0 else ObjectCount(files[..|files| - 1]) + Span(files[|files| - 1])
  }

  function JpegCount(files: seq<Upload>): nat
  {
    if |files| == 0 then 0 else JpegCount(files[..|files| - 1]) + (if IsJpeg(files[|files| - 1]) then 1 else 0)
  }

  /** Two numbers per file and one more per JPEG. */
  lemma {:induction false} ObjectCountValue(files: seq<Upload>)
    ensures ObjectCount(files) == 2 * |files| + JpegCount(files)
  {
    if |files| > 0 {
      ObjectCountValue(files[..|files| - 1]);
    }
  }

  /** The objects objs are numbered p, p + 1, ... in bodies. */
  predicate Placed(bodies: map<nat, PdfObject>, p: nat, objs: seq<PdfObject>)
  {
    forall id :: p <= id < p + |objs| ==> id in bodies && bodies[id] == objs[id - p]
  }

  /** Every number from the font up to the last one used has a body, and no other. */
  predicate Covers(l: Layout)
  {
    && FirstFileId <= l.next
    && (forall id :: id in l.bodies ==> FontId <= id < l.next)
    && (forall id :: FontId <= id < l.next ==> id in l.bodies)
  }

  /**
    The pages in file order: the page of file k is numbered just after the
    objects of the files before it, and the numbers from there on hold the
    objects of file k.
  */
  predicate PagesInOrder(l: Layout, files: seq<Upload>, pgW: nat, pgH: nat, fit: Fit, format: Format)
  {
    |l.pageIds| == |files| && forall k :: 0 <= k < |files| ==> PageAt(l, files, k, pgW, pgH, fit, format)
  }

  /** Page k is numbered after the objects of the files before it, and holds the objects of file k. */
  predicate PageAt(l: Layout, files: seq<Upload>, k: nat, pgW: nat, pgH: nat, fit: Fit, format: Format)
    requires k < |files| && k < |l.pageIds|
  {
    && l.pageIds[k] == FirstFileId + ObjectCount(files[..k])
    && l.pageIds[k] + Span(files[k]) <= l.next
    && Placed(l.bodies, l.pageIds[k], FileObjects(files[k], l.pageIds[k], pgW, pgH, fit, format))
  }

  /** The numbering after the given files: no gap, /Size = 4 + the files' objects, page k shows file k. */
  predicate Shaped(l: Layout, files: seq<Upload>, pgW: nat, pgH: nat, fit: Fit, format: Format)
  {
    Covers(l) && l.next == FirstFileId + ObjectCount(files) && PagesInOrder(l, files, pgW, pgH, fit, format)
  }

  lemma {:induction false} LayoutShape(files: seq<Upload>, pgW: nat, pgH: nat, fit: Fit, format: Format)
    ensures Shaped(LayoutOf(files, pgW, pgH, fit, format), files, pgW, pgH, fit, format)
  {
    if |files| > 0 {
      var init, f := files[..|files| - 1], files[|files| - 1];
      LayoutShape(init, pgW, pgH, fit, format);
      StepShape(LayoutOf(init, pgW, pgH, fit, format), init, f, pgW, pgH, fit, format);
      assert init + [f] == files;
    }
  }

  lemma StepShape(l: Layout, init: seq<Upload>, f: Upload, pgW: nat, pgH: nat, fit: Fit, format: Format)
    requires Shaped(l, init, pgW, pgH, fit, format)
    ensures Shaped(AddFile(l, f, pgW, pgH, fit, format), init + [f], pgW, pgH, fit, format)
  {
    if IsJpeg(f) {
      AddImageExtends(l, f, pgW, pgH, fit, format);
    } else {
      AddTextExtends(l, f, pgW, pgH, fit, format);
    }
    ExtendsShape(l, AddFile(l, f, pgW, pgH, fit, format), init, f, pgW, pgH, fit, format);
  }

  /** The numbers lo up to, and not including, hi. */
  function Range(lo: nat, hi: nat): (r: set<nat>)
    ensures forall id :: id in r <==> lo <= id < hi
    decreases hi - lo
  {
    if lo >= hi then {} else {lo} + Range(lo + 1, hi)
  }

  /** What adding one file does to the layout: objs take the next numbers, nothing earlier changes. */
  predicate Extends(l: Layout, l': Layout, objs: seq<PdfObject>)
  {
    && l'.next == l.next + |objs|
    && l'.pageIds == l.pageIds + [l.next]
    && l'.bodies.Keys == l.bodies.Keys + Range(l.next, l.next + |objs|)
    && Placed(l'.bodies, l.next, objs)
    && (forall id :: id in l.bodies && id < l.next ==> l'.bodies[id] == l.bodies[id])
  }

  lemma AddImageExtends(l: Layout, f: Upload, pgW: nat, pgH: nat, fit: Fit, format: Format)
    requires IsJpeg(f)
    ensures Extends(l, AddFile(l, f, pgW, pgH, fit, format), FileObjects(f, l.next, pgW, pgH, fit, format))
  {
    var p := l.next;
    var l' := AddImage(l, f, pgW, pgH, fit);
    var objs := FileObjects(f, p, pgW, pgH, fit, format);
    assert Range(p, p + 3) == {p, p + 1, p + 2};
    assert l'.bodies.Keys == l.bodies.Keys + {p, p + 1, p + 2};
    assert l'.bodies[p] == objs[0] && l'.bodies[p + 1] == objs[1] && l'.bodies[p + 2] == objs[2];
  }

  lemma AddTextExtends(l: Layout, f: Upload, pgW: nat, pgH: nat, fit: Fit, format: Format)
    requires !IsJpeg(f)
    ensures Extends(l, AddFile(l, f, pgW, pgH, fit, format), FileObjects(f, l.next, pgW, pgH, fit, format))
  {
    var p := l.next;
    var l' := AddText(l, f, pgW, pgH, format);
    var objs := FileObjects(f, p, pgW, pgH, fit, format);
    assert Range(p, p + 2) == {p, p + 1};
    assert l'.bodies.Keys == l.bodies.Keys + {p, p + 1};
    assert l'.bodies[p] == objs[0] && l'.bodies[p + 1] == objs[1];
  }

  lemma PlacedKept(l: Layout, l': Layout, p: nat, objs: seq<PdfObject>)
    requires Placed(l.bodies, p, objs) && p + |objs| <= l.next
    requires l.bodies.Keys <= l'.bodies.Keys
    requires forall id :: id in l.bodies && id < l.next ==> l'.bodies[id] == l.bodies[id]
    ensures Placed(l'.bodies, p, objs)
  {
  }

  lemma ExtendsShape(l: Layout, l': Layout, init: seq<Upload>, f: Upload, pgW: nat, pgH: nat, fit: Fit, format: Format)
    requires Shaped(l, init, pgW, pgH, fit, format)
    requires Extends(l, l', FileObjects(f, l.next, pgW, pgH, fit, format))
    ensures Shaped(l', init + [f], pgW, pgH, fit, format)
  {
    var files := init + [f];
    ExtendsCovers(l, l', FileObjects(f, l.next, pgW, pgH, fit, format));
    ObjectCountSnoc(init, f);
    forall k | 0 <= k < |files|
      ensures PageAt(l', files, k, pgW, pgH, fit, format)
    {
      if k < |init| {
        EarlierPageKept(l, l', init, f, k, pgW, pgH, fit, format);
      } else {
        LastPageAdded(l, l', init, f, pgW, pgH, fit, format);
      }
    }
  }

  lemma ObjectCountSnoc(init: seq<Upload>, f: Upload)
    ensures ObjectCount(init + [f]) == ObjectCount(init) + Span(f)
  {
    assert (init + [f])[..|init|] == init;
  }

  lemma ExtendsCovers(l: Layout, l': Layout, objs: seq<PdfObject>)
    requires Covers(l) && Extends(l, l', objs)
    ensures Covers(l')
  {
    forall id | FontId <= id < l'.next
      ensures id in l'.bodies
    {
      if id >= l.next {
        assert id in Range(l.next, l'.next);
      }
    }
  }

  /** The page of the file just added is numbered after all earlier objects and holds its objects. */
  lemma LastPageAdded(l: Layout, l': Layout, init: seq<Upload>, f: Upload, pgW: nat, pgH: nat, fit: Fit, format: Format)
    requires Shaped(l, init, pgW, pgH, fit, format)
    requires Extends(l, l', FileObjects(f, l.next, pgW, pgH, fit, format))
    ensures PageAt(l', init + [f], |init|, pgW, pgH, fit, format)
  {
    assert (init + [f])[..|init|] == init;
    assert l'.pageIds[|init|] == l.next;
  }

  /** The page of an earlier file keeps its number and its objects. */
  lemma EarlierPageKept(l: Layout, l': Layout, init: seq<Upload>, f: Upload, k: nat, pgW: nat, pgH: nat, fit: Fit, format: Format)
    requires Shaped(l, init, pgW, pgH, fit, format) && k < |init|
    requires Extends(l, l', FileObjects(f, l.next, pgW, pgH, fit, format))
    ensures PageAt(l', init + [f], k, pgW, pgH, fit, format)
  {
    assert (init + [f])[..k] == init[..k];
    assert l'.pageIds[k] == l.pageIds[k];
    assert PageAt(l, init, k, pgW, pgH, fit, format);
    PlacedKept(l, l', l.pageIds[k], FileObjects(init[k], l.pageIds[k], pgW, pgH, fit, format));
  }

  function PdfHeader(): string
  {
    "%PDF-1.4\n"
  }

  function ObjHead(id: nat): string
  {
    NatToString(id) + " 0 obj\n"
  }

  function ObjTail(): string
  {
    "\nendobj\n"
  }

  /** One indirect object as WriteObj puts it out: "id 0 obj", the body, "endobj". */
  function ObjectBytes(id: nat, data: seq<Byte>): seq<Byte>
  {
    Ascii(ObjHead(id)) + data + Ascii(ObjTail())
  }

  /** The objects in number order, catalog and page tree first: object k + 1 sits at index k. */
  function Bodies(l: Layout): (objs: seq<PdfObject>)
    requires Covers(l)
    ensures |objs| == l.next - 1
    ensures objs[0] == Catalog && objs[1] == Pages(l.pageIds)
    ensures forall id :: FontId <= id < l.next ==> objs[id - 1] == l.bodies[id]
  {
    [Catalog, Pages(l.pageIds)] + seq(l.next - FontId, k requires 0 <= k < l.next - FontId => l.bodies[k + FontId])
  }

  /** Objects 1 to |objs| written one after another. */
  function Serialize(objs: seq<PdfObject>, enc: Encoder): seq<Byte>
  {
    if |objs| == 0 then [] else Serialize(objs[..|objs| - 1], enc) + ObjectBytes(|objs|, enc(objs[|objs| - 1]))
  }

  /** Where each object starts when the objects follow `base` bytes of header. */
  function Offsets(base: nat, objs: seq<PdfObject>, enc: Encoder): (offs: seq<nat>)
    ensures |offs| == |objs|
    ensures forall k :: 0 <= k < |objs| ==> offs[k] == base + |Serialize(objs[..k], enc)|
  {
    seq(|objs|, k requires 0 <= k < |objs| => base + |Serialize(objs[..k], enc)|)
  }

  /** An in-use cross-reference entry: the offset as ten digits ("D10"), generation 0, 'n'. */
  function XrefEntry(off: nat): string
  {
    PadZero(NatToString(off), 10) + " 00000 n \n"
  }

  /** Every offset below 10^10 gives an entry of exactly twenty bytes, as the cross-reference format demands. */
  lemma XrefEntryLength(off: nat)
    requires off < 10000000000
    ensures |XrefEntry(off)| == 20
  {
    var s := NatToString(off);
    NatToStringValue(off);
    assert Pow10(10) == 10000000000;
    if |s| > 10 {
      Pow10Monotone(10, |s| - 1);
    }
  }

  function XrefEntries(offs: seq<nat>): seq<Byte>
  {
    if |offs| == 0 then [] else XrefEntries(offs[..|offs| - 1]) + Ascii(XrefEntry(offs[|offs| - 1]))
  }

  /** Every offset fits the ten digits of an entry. */
  predicate OffsetsFitTenDigits(offs: seq<nat>)
  {
    forall i :: 0 <= i < |offs| ==> offs[i] < 10000000000
  }

  /** With every offset below 10^10 the entries take twenty bytes each. */
  lemma {:induction false} XrefEntriesLength(offs: seq<nat>)
    requires OffsetsFitTenDigits(offs)
    ensures |XrefEntries(offs)| == 20 * |offs|
  {
    if |offs| > 0 {
      XrefEntriesLength(offs[..|offs| - 1]);
      XrefEntryLength(offs[|offs| - 1]);
    }
  }

  function XrefKeyword(): string
  {
    "xref\n"
  }

  function Subsection(size: nat): string
  {
    "0 " + NatToString(size) + "\n"
  }

  function FreeHead(): string
  {
    "0000000000 65535 f \n"
  }

  /** The table's first lines: the keyword, the subsection 0 to size - 1, and the free entry 0. */
  function XrefHead(size: nat): seq<Byte>
  {
    Ascii(XrefKeyword()) + Ascii(Subsection(size)) + Ascii(FreeHead())
  }

  function TrailerDict(size: nat): string
  {
    "trailer\n<< /Size " + NatToString(size) + " /Root " + NatToString(CatalogId) + " 0 R >>\n"
  }

  function StartXref(xrefPos: nat): string
  {
    "startxref\n" + NatToString(xrefPos) + "\n%%EOF\n"
  }

  /** Header and objects: everything before the cross-reference table. */
  function BodyBytes(l: Layout): seq<Byte>
    requires Covers(l)
  {
    Ascii(PdfHeader()) + Serialize(Bodies(l), Encode)
  }

  /** The whole file for a layout: header, objects in number order, table, trailer. */
  function PdfBytes(l: Layout): seq<Byte>
    requires Covers(l)
  {
    var body := BodyBytes(l);
    body + XrefHead(l.next) + XrefEntries(Offsets(|Ascii(PdfHeader())|, Bodies(l), Encode))
      + Ascii(TrailerDict(l.next)) + Ascii(StartXref(|body|))
  }

  /** The file GeneratePdf returns. */
  function GeneratedPdf(files: seq<Upload>, pageSize: string, orientation: string, fit: Fit): seq<Byte>
  {
    var size := PageSize(pageSize, orientation);
    LayoutShape(files, size.0, size.1, fit, PdfText.FormattedText);
    PdfBytes(LayoutOf(files, size.0, size.1, fit, PdfText.FormattedText))
  }

  /** The MemoryStream behind the writer: the bytes so far, whose length is the position. */
  class OutputStream {
    var bytes: seq<Byte>

    constructor()
      ensures bytes == []
    {
      bytes := [];
    }

    function Position(): nat
      reads this
    {
      |bytes|
    }

    method Write(data: seq<Byte>)
      modifies this
      ensures bytes == old(bytes) + data
    {
      bytes := bytes + data;
    }
  }

  /** WriteObj: note the position as the object's offset, then write the object. */
  method WriteObj(ms: OutputStream, offsets: map<nat, nat>, id: nat, data: seq<Byte>) returns (offsets': map<nat, nat>)
    modifies ms
    ensures ms.bytes == old(ms.bytes) + ObjectBytes(id, data)
    ensures offsets' == offsets[id := |old(ms.bytes)|]
  {
    offsets' := offsets[id := ms.Position()];
    ms.Write(Ascii(ObjHead(id)));
    ms.Write(data);
    ms.Write(Ascii(ObjTail()));
  }

  lemma SerializeSnoc(objs: seq<PdfObject>, n: nat, enc: Encoder)
    requires 0 < n <= |objs|
    ensures Serialize(objs[..n], enc) == Serialize(objs[..n - 1], enc) + ObjectBytes(n, enc(objs[n - 1]))
  {
    assert objs[..n][..n - 1] == objs[..n - 1];
  }

  /** Writing object id after objects 1 to id - 1 gives objects 1 to id, and it starts at its offset. */
  lemma WriteStep(base: seq<Byte>, objs: seq<PdfObject>, id: nat, before: seq<Byte>, enc: Encoder)
    requires 0 < id <= |objs| && before == base + Serialize(objs[..id - 1], enc)
    ensures before + ObjectBytes(id, enc(objs[id - 1])) == base + Serialize(objs[..id], enc)
    ensures |before| == Offsets(|base|, objs, enc)[id - 1]
  {
    SerializeSnoc(objs, id, enc);
    AppendAssoc(base, Serialize(objs[..id - 1], enc), ObjectBytes(id, enc(objs[id - 1])));
  }

  lemma XrefEntriesSnoc(offs: seq<nat>, n: nat)
    requires 0 < n <= |offs|
    ensures XrefEntries(offs[..n]) == XrefEntries(offs[..n - 1]) + Ascii(XrefEntry(offs[n - 1]))
  {
    assert offs[..n][..n - 1] == offs[..n - 1];
  }

  /** The build loop: number the objects and fill their bodies, file by file. */
  method BuildObjects(files: seq<Upload>, pgW: nat, pgH: nat, fit: Fit)
    returns (objectBodies: map<nat, PdfObject>, pageIds: seq<nat>, currentId: nat)
    ensures Layout(objectBodies, pageIds, currentId) == LayoutOf(files, pgW, pgH, fit, PdfText.FormattedText)
  {
    currentId := 3;
    pageIds := [];
    var fontId := currentId;
    currentId := currentId + 1;
    objectBodies := map[];
    objectBodies := objectBodies[fontId := Font];
    for i := 0 to |files|
      invariant Layout(objectBodies, pageIds, currentId) == LayoutOf(files[..i], pgW, pgH, fit, PdfText.FormattedText)
    {
      var file := files[i];
      var ext := ToLower(file.ext);
      ghost var l := Layout(objectBodies, pageIds, currentId);
      var pageId := currentId;
      currentId := currentId + 1;
      pageIds := pageIds + [pageId];
      var contentId := currentId;
      currentId := currentId + 1;
      if IsImage(ext) {
        var imgBytes := file.data;
        var imgObjId := currentId;
        currentId := currentId + 1;
        var img := new Byte[|imgBytes|](k requires 0 <= k < |imgBytes| => imgBytes[k]);
        assert img[..] == imgBytes;
        var w, h := GetJpegDimensions(img);
        objectBodies := objectBodies[imgObjId := Image(w, h, imgBytes)];
        var placement := fit(w, h, pgW, pgH);
        objectBodies := objectBodies[contentId := ImageContent(placement, imgObjId)];
        objectBodies := objectBodies[pageId := ImagePage(pgW, pgH, contentId, imgObjId)];
      } else {
        var formattedContent := PdfText.FormatTextToPdfStream(file.text);
        objectBodies := objectBodies[contentId := TextContent(formattedContent)];
        objectBodies := objectBodies[pageId := TextPage(pgW, pgH, contentId)];
      }
      assert Layout(objectBodies, pageIds, currentId) == AddFile(l, file, pgW, pgH, fit, PdfText.FormattedText);
      assert files[..i + 1][..i] == files[..i];
    }
    assert files[..|files|] == files;
  }

  /** Numbers 1 to upTo - 1, and no others, have been written, each at the offset `offs` gives it. */
  predicate OffsetsNoted(offsets: map<nat, nat>, offs: seq<nat>, upTo: nat)
    requires upTo <= |offs| + 1
  {
    && (forall j :: j in offsets ==> 1 <= j < upTo)
    && (forall j :: 1 <= j < upTo ==> j in offsets && offsets[j] == offs[j - 1])
  }

  lemma NoteOffset(offsets: map<nat, nat>, offs: seq<nat>, id: nat, pos: nat)
    requires 1 <= id <= |offs| && OffsetsNoted(offsets, offs, id) && pos == offs[id - 1]
    ensures OffsetsNoted(offsets[id := pos], offs, id + 1)
  {
  }

  lemma BodiesInOrder(l: Layout)
    requires Covers(l)
    ensures |Bodies(l)| + 1 == l.next
    ensures forall id :: FontId <= id < l.next ==> id in l.bodies && l.bodies[id] == Bodies(l)[id - 1]
  {
  }

  /**
    The catalog, the page tree and then every body in number order (the
    bodies are keyed 3 to currentId - 1 without a gap, so ordering them by
    key is counting up), each offset noted.
  */
  method WriteObjects(ms: OutputStream, objectBodies: map<nat, PdfObject>, pageIds: seq<nat>, currentId: nat,
                      enc: Encoder)
    returns (finalOffsets: map<nat, nat>)
    requires Covers(Layout(objectBodies, pageIds, currentId))
    modifies ms
    ensures ms.bytes == old(ms.bytes) + Serialize(Bodies(Layout(objectBodies, pageIds, currentId)), enc)
    ensures OffsetsNoted(finalOffsets, Offsets(|old(ms.bytes)|, Bodies(Layout(objectBodies, pageIds, currentId)), enc), currentId)
  {
    ghost var objs := Bodies(Layout(objectBodies, pageIds, currentId));
    BodiesInOrder(Layout(objectBodies, pageIds, currentId));
    ghost var base := ms.bytes;
    ghost var offs := Offsets(|base|, objs, enc);
    finalOffsets := map[];
    assert objs[..0] == [] && base + [] == base;
    WriteStep(base, objs, 1, ms.bytes, enc);
    NoteOffset(finalOffsets, offs, 1, ms.Position());
    finalOffsets := WriteObj(ms, finalOffsets, CatalogId, enc(Catalog));
    WriteStep(base, objs, 2, ms.bytes, enc);
    NoteOffset(finalOffsets, offs, 2, ms.Position());
    finalOffsets := WriteObj(ms, finalOffsets, PagesRootId, enc(Pages(pageIds)));
    finalOffsets := WriteBodies(ms, objectBodies, currentId, finalOffsets, objs, base, enc);
  }

  /** The loop over the bodies, in key order 3 to currentId - 1. */
  method WriteBodies(ms: OutputStream, objectBodies: map<nat, PdfObject>, currentId: nat, offsets: map<nat, nat>,
                     ghost objs: seq<PdfObject>, ghost base: seq<Byte>, enc: Encoder)
    returns (finalOffsets: map<nat, nat>)
    requires FontId <= currentId && |objs| + 1 == currentId
    requires forall id :: FontId <= id < currentId ==> id in objectBodies && objectBodies[id] == objs[id - 1]
    requires ms.bytes == base + Serialize(objs[..FontId - 1], enc)
    requires OffsetsNoted(offsets, Offsets(|base|, objs, enc), FontId)
    modifies ms
    ensures ms.bytes == base + Serialize(objs, enc)
    ensures OffsetsNoted(finalOffsets, Offsets(|base|, objs, enc), currentId)
  {
    ghost var offs := Offsets(|base|, objs, enc);
    finalOffsets := offsets;
    for id := FontId to currentId
      invariant ms.bytes == base + Serialize(objs[..id - 1], enc)
      invariant OffsetsNoted(finalOffsets, offs, id)
    {
      WriteStep(base, objs, id, ms.bytes, enc);
      NoteOffset(finalOffsets, offs, id, ms.Position());
      finalOffsets := WriteObj(ms, finalOffsets, id, enc(objectBodies[id]));
    }
    assert objs[..currentId - 1] == objs;
  }

  /** The cross-reference table: its head, then one in-use entry per number 1 to currentId - 1. */
  method WriteXref(ms: OutputStream, finalOffsets: map<nat, nat>, currentId: nat, ghost offs: seq<nat>)
    requires |offs| + 1 == currentId && OffsetsNoted(finalOffsets, offs, currentId)
    modifies ms
    ensures ms.bytes == old(ms.bytes) + XrefHead(currentId) + XrefEntries(offs)
    ensures OffsetsFitTenDigits(offs) ==> |ms.bytes| == |old(ms.bytes)| + |XrefHead(currentId)| + 20 * |offs|
  {
    ms.Write(Ascii(XrefKeyword()));
    ms.Write(Ascii(Subsection(currentId)));
    ms.Write(Ascii(FreeHead()));
    ghost var start := old(ms.bytes) + XrefHead(currentId);
    for i := 1 to currentId
      invariant ms.bytes == start + XrefEntries(offs[..i - 1])
    {
      XrefEntriesSnoc(offs, i);
      AppendAssoc(start, XrefEntries(offs[..i - 1]), Ascii(XrefEntry(offs[i - 1])));
      if i in finalOffsets {
        ms.Write(Ascii(XrefEntry(finalOffsets[i])));
      } else {
        // The source writes a free entry here; every number has an offset by now.
        assert false;
      }
    }
    assert offs[..currentId - 1] == offs;
    if OffsetsFitTenDigits(offs) {
      XrefEntriesLength(offs);
    }
  }

  /**
    GeneratePdf: the page size, the build loop, then the objects, the
    cross-reference table and the trailer written to one stream. The
    result is GeneratedPdf.
  */
  method GeneratePdf(files: seq<Upload>, pageSize: string, orientation: string, fit: Fit) returns (pdf: seq<Byte>)
    ensures pdf == GeneratedPdf(files, pageSize, orientation, fit)
  {
    var pgW: nat, pgH: nat := 595, 842;
    if pageSize == "Letter" {
      pgW, pgH := 612, 792;
    }
    if orientation == "Landscape" {
      pgW, pgH := pgH, pgW;
    }
    assert (pgW, pgH) == PageSize(pageSize, orientation);
    var ms := new OutputStream();
    ms.Write(Ascii(PdfHeader()));
    assert ms.bytes == Ascii(PdfHeader()) by {
      assert [] + Ascii(PdfHeader()) == Ascii(PdfHeader());
    }
    var objectBodies, pageIds, currentId := BuildObjects(files, pgW, pgH, fit);
    LayoutShape(files, pgW, pgH, fit, PdfText.FormattedText);
    WriteDocument(ms, objectBodies, pageIds, currentId);
    return ms.bytes;
  }

  /** The writing phase of GeneratePdf, after the header: objects, cross-reference table, trailer. */
  method WriteDocument(ms: OutputStream, objectBodies: map<nat, PdfObject>, pageIds: seq<nat>, currentId: nat)
    requires Covers(Layout(objectBodies, pageIds, currentId))
    requires ms.bytes == Ascii(PdfHeader())
    modifies ms
    ensures ms.bytes == PdfBytes(Layout(objectBodies, pageIds, currentId))
  {
    ghost var layout := Layout(objectBodies, pageIds, currentId);
    var finalOffsets := WriteObjects(ms, objectBodies, pageIds, currentId, Encode);
    assert ms.bytes == BodyBytes(layout);
    var xrefPos := ms.Position();
    WriteXref(ms, finalOffsets, currentId, Offsets(|Ascii(PdfHeader())|, Bodies(layout), Encode));
    ms.Write(Ascii(TrailerDict(currentId)));
    ms.Write(Ascii(StartXref(xrefPos)));
  }
}

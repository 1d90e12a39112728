/** The section slicing of split.js, which cuts the text of app.js into sections at banner
    comments. The text is a parameter (the file read and the files written are left out). */
module Split {
  import opened Wrappers
  import opened Text

  /** `p` occurs at `a` and nowhere before: what `indexOf(p)` finds. */
  ghost predicate FirstOccurrence(text: string, p: string, a: int) {
    OccursAt(text, p, a) && forall i :: 0 <= i < a ==> !OccursAt(text, p, i)
  }

  /** `r` is the text between `lo` and `hi` with the white space at both ends cut off, and
      it starts at `p`. */
  ghost predicate SectionAt(text: string, lo: int, hi: int, r: string, p: int) {
    0 <= lo <= p && p + |r| <= hi <= |text| && Trimmed(r) && text[p..p + |r|] == r
    && AllSpace(text[lo..p]) && AllSpace(text[p + |r|..hi])
  }

  /** `r` is the text between `lo` and `hi` with the white space at both ends cut off. */
  ghost predicate Section(text: string, lo: int, hi: int, r: string) {
    exists p :: SectionAt(text, lo, hi, r, p)
  }

  /** `text.slice(lo, hi).trim()`. */
  function TrimSlice(text: string, lo: nat, hi: nat): (r: string)
    requires lo <= hi <= |text|
    ensures Section(text, lo, hi, r)
  {
    var s := text[lo..hi];
    var r := Trim(s);
    var n := LeadingSpaces(s);
    TrimSliceAt(text, lo, hi, s, r, n);
    r
  }

  lemma TrimSliceAt(text: string, lo: nat, hi: nat, s: string, r: string, n: nat)
    requires lo <= hi <= |text| && s == text[lo..hi] && r == Trim(s) && n == LeadingSpaces(s)
    ensures SectionAt(text, lo, hi, r, lo + n)
  {
    assert r == s[n..n + |r|];
    assert text[lo + n..lo + n + |r|] == r;
    assert text[lo..lo + n] == s[..n];
    assert text[lo + n + |r|..hi] == s[n + |r|..];
  }

  /** A JavaScript truthiness test on an optional marker: null and "" are both false. */
  predicate Truthy(marker: Option<string>) {
    marker.Some? && marker.value != []
  }

  /** Where a section that starts at `from` ends: the first truthy end marker at or after
      `from`, else the end of the text. */
  function EndBound(text: string, endMarker: Option<string>, from: nat): (e: nat)
    requires from <= |text|
    ensures from <= e <= |text|
    ensures Truthy(endMarker) && (exists i :: from <= i && OccursAt(text, endMarker.value, i)) ==>
      OccursAt(text, endMarker.value, e) && forall i :: from <= i < e ==> !OccursAt(text, endMarker.value, i)
    ensures !(Truthy(endMarker) && exists i :: from <= i && OccursAt(text, endMarker.value, i)) ==>
      e == |text|
  {
    var b := if Truthy(endMarker) then IndexOf(text, endMarker.value, from) else -1;
    if b == -1 then |text| else b
  }

  /** sliceBetween: "" when the start marker is absent; otherwise the trimmed text from just
      after its first occurrence to the end bound. */
  function SliceBetween(text: string, startMarker: string, endMarker: Option<string>): (r: string)
    ensures (forall i :: !OccursAt(text, startMarker, i)) ==> r == ""
    ensures forall a :: FirstOccurrence(text, startMarker, a) ==>
      Section(text, a + |startMarker|, EndBound(text, endMarker, a + |startMarker|), r)
  {
    var a := IndexOf(text, startMarker, 0);
    if a == -1 then ""
    else
      var start := a + |startMarker|;
      FirstUnique(text, startMarker);
      TrimSlice(text, start, EndBound(text, endMarker, start))
  }

  lemma FirstUnique(text: string, p: string)
    ensures forall a, b :: FirstOccurrence(text, p, a) && FirstOccurrence(text, p, b) ==> a == b
  {
  }

  /** The banner that opens every section. */
  const SectionBanner := "/* ========================="

  /** findImportBlock: the trimmed text before the first banner, or "" without one. */
  function FindImportBlock(text: string): (r: string)
    ensures (forall i :: !OccursAt(text, SectionBanner, i)) ==> r == ""
    ensures forall b :: FirstOccurrence(text, SectionBanner, b) ==> Section(text, 0, b, r)
  {
    var b := IndexOf(text, SectionBanner, 0);
    FirstUnique(text, SectionBanner);
    if b == -1 then "" else TrimSlice(text, 0, b)
  }

  /** The banners of MARK. */
  const PwaMark := SectionBanner + "\n   PWA install + SW\n========================= */"
  const DomMark := SectionBanner + "\n   DOM helpers\n========================= */"
  const TripsMark := SectionBanner + "\n   Trips\n========================= */"
  const GpsMark := SectionBanner + "\n   GPS + Photo\n========================= */"
  const BootMark := SectionBanner + "\n   Boot\n========================= */"
  const CatchesMark := SectionBanner + "\n   Catches\n========================= */"
  const CollageMark := SectionBanner + "\n   Trip Collage Builder"
  const ExportMark := SectionBanner + "\n   Export / Import\n========================= */"
  const CollageFunction := "async function buildTripCollage"

  /** findCollageStart: the collage banner if present, else the collage function, else -1. */
  function FindCollageStart(text: string): (idx: int)
    ensures idx == -1 || 0 <= idx <= |text|
    ensures forall a :: FirstOccurrence(text, CollageMark, a) ==> idx == a
    ensures (forall i :: !OccursAt(text, CollageMark, i)) ==>
      forall a :: FirstOccurrence(text, CollageFunction, a) ==> idx == a
    ensures idx == -1 <==>
      (forall i :: !OccursAt(text, CollageMark, i)) && (forall i :: !OccursAt(text, CollageFunction, i))
  {
    FirstUnique(text, CollageMark);
    FirstUnique(text, CollageFunction);
    var idx := IndexOf(text, CollageMark, 0);
    if idx != -1 then idx else IndexOf(text, CollageFunction, 0)
  }

  /** sliceFromIndexToMarker: "" for -1; otherwise the trimmed text from the index to the end
      bound. */
  function SliceFromIndexToMarker(text: string, startIdx: int, endMarker: Option<string>): (r: string)
    requires startIdx == -1 || 0 <= startIdx <= |text|
    ensures startIdx == -1 ==> r == ""
    ensures startIdx != -1 ==> Section(text, startIdx, EndBound(text, endMarker, startIdx), r)
  {
    if startIdx == -1 then "" else TrimSlice(text, startIdx, EndBound(text, endMarker, startIdx))
  }

  /** The catches section as split.js computes it (`catchesFixed`): sliceBetween from the
      Catches banner, with the Export banner as end marker when there is no collage start and
      no end marker (null) when there is one; then, if that came out empty, the same start
      sliced up to the collage start or the Export banner. */
  function CatchesSectionAsWritten(text: string): (r: string)
    ensures r == "" || (exists i :: OccursAt(text, r, i))
  {
    var collageIdx := FindCollageStart(text);
    var catches := SliceBetween(text, CatchesMark, if collageIdx == -1 then Some(ExportMark) else None);
    SectionOccurs(text, catches);
    if catches != "" then catches else CatchesFallback(text, collageIdx)
  }

  /** The index-based slice split.js falls back on: from just after the Catches banner up to
      `end` (JavaScript's slice gives "" when the end lies before the start). */
  function CatchesFallback(text: string, collageIdx: int): (r: string)
    requires collageIdx == -1 || 0 <= collageIdx <= |text|
    ensures r == "" || (exists i :: OccursAt(text, r, i))
    ensures forall a :: (FirstOccurrence(text, CatchesMark, a) && collageIdx != -1
      && a + |CatchesMark| <= collageIdx) ==> Section(text, a + |CatchesMark|, collageIdx, r)
  {
    var cs := IndexOf(text, CatchesMark, 0);
    FirstUnique(text, CatchesMark);
    if cs == -1 then ""
    else
      var start := cs + |CatchesMark|;
      var e := if collageIdx != -1 then collageIdx else EndBound(text, Some(ExportMark), start);
      if e < start then ""
      else
        var r := TrimSlice(text, start, e);
        SectionOccurs(text, r);
        r
  }

  /** Every non-empty section occurs in the text. */
  lemma SectionOccurs(text: string, r: string)
    ensures (exists lo, hi :: Section(text, lo, hi, r)) && r != "" ==> exists i :: OccursAt(text, r, i)
  {
    if (exists lo, hi :: Section(text, lo, hi, r)) && r != "" {
      var lo, hi :| Section(text, lo, hi, r);
      var p :| SectionAt(text, lo, hi, r, p);
      assert OccursAt(text, r, p);
    }
  }

  /** A string that occurs inside a section's bounds and begins and ends with a character
      that is not white space lies inside the trimmed section. */
  lemma InsideSection(text: string, lo: int, hi: int, r: string, p: int, m: string, c: int)
    requires SectionAt(text, lo, hi, r, p)
    requires OccursAt(text, m, c) && lo <= c && c + |m| <= hi
    requires |m| > 0 && !IsJsSpace(m[0]) && !IsJsSpace(m[|m| - 1])
    ensures OccursAt(r, m, c - p)
  {
    assert text[c] == m[0] by { assert text[c..c + |m|][0] == m[0]; }
    var last := c + |m| - 1;
    assert text[last] == m[|m| - 1] by { assert text[c..c + |m|][|m| - 1] == m[|m| - 1]; }
    forall k | lo <= k < p ensures IsJsSpace(text[k]) {
      assert text[k] == text[lo..p][k - lo];
    }
    forall k | p + |r| <= k < hi ensures IsJsSpace(text[k]) {
      assert text[k] == text[p + |r|..hi][k - p - |r|];
    }
    assert p <= c;
    assert last < p + |r|;
    forall j | c <= j < c + |m| ensures r[j - p] == text[j] {
      assert r[j - p] == text[p..p + |r|][j - p];
    }
    var inR, inText := r[c - p..c - p + |m|], text[c..c + |m|];
    forall k | 0 <= k < |m| ensures inR[k] == inText[k] {
      assert inR[k] == r[(c + k) - p];
    }
    assert inR == inText;
  }

  /** What split.js evidently means the catches section to be (its comment says the section
      "ends right before collage start index"): from the Catches banner to the collage start
      when there is one, else to the Export banner. */
  function CatchesSection(text: string): (r: string)
    ensures forall a :: (FirstOccurrence(text, CatchesMark, a) && FindCollageStart(text) != -1
      && a + |CatchesMark| <= FindCollageStart(text)) ==>
      Section(text, a + |CatchesMark|, FindCollageStart(text), r)
    ensures FindCollageStart(text) == -1 ==> r == SliceBetween(text, CatchesMark, Some(ExportMark))
  {
    var collageIdx := FindCollageStart(text);
    if collageIdx == -1 then SliceBetween(text, CatchesMark, Some(ExportMark))
    else CatchesFallback(text, collageIdx)
  }

  /** Sliced to the end of the text, the catches section holds any collage banner after the
      Catches banner. */
  lemma SliceToEndHoldsCollage(text: string, a: nat, c: nat)
    requires FirstOccurrence(text, CatchesMark, a)
    requires OccursAt(text, CollageMark, c) && a + |CatchesMark| <= c
    ensures exists i :: OccursAt(SliceBetween(text, CatchesMark, None), CollageMark, i)
  {
    var start := a + |CatchesMark|;
    var r := SliceBetween(text, CatchesMark, None);
    assert EndBound(text, None, start) == |text|;
    var p :| SectionAt(text, start, |text|, r, p);
    assert SectionBanner[0] == '/';
    InsideSection(text, start, |text|, r, p, CollageMark, c);
  }

  /** The section split.js computes runs past the collage start: whenever the collage banner
      follows the Catches banner, the catches section is sliced with no end marker, holds the
      whole collage banner (and so the collage code after it), and the fallback that would
      stop at the collage start never runs. */
  lemma CatchesSectionSwallowsCollage(text: string, a: nat, c: nat)
    requires FirstOccurrence(text, CatchesMark, a)
    requires OccursAt(text, CollageMark, c) && a + |CatchesMark| <= c
    ensures CatchesSectionAsWritten(text) == SliceBetween(text, CatchesMark, None)
    ensures exists i :: OccursAt(CatchesSectionAsWritten(text), CollageMark, i)
  {
    SliceToEndHoldsCollage(text, a, c);
    var r := SliceBetween(text, CatchesMark, None);
    var i :| OccursAt(r, CollageMark, i);
    assert r != "";
    assert FindCollageStart(text) != -1;
  }

  /** A piece of the text: trimmed, and either empty or found in the text. */
  ghost predicate IsPiece(text: string, r: string) {
    Trimmed(r) && (r == "" || exists i :: OccursAt(text, r, i))
  }

  lemma SectionPiece(text: string, lo: int, hi: int, r: string)
    requires Section(text, lo, hi, r)
    ensures IsPiece(text, r)
  {
    var p :| SectionAt(text, lo, hi, r, p);
    assert OccursAt(text, r, p);
  }

  lemma SliceBetweenPiece(text: string, startMarker: string, endMarker: Option<string>)
    ensures IsPiece(text, SliceBetween(text, startMarker, endMarker))
  {
    var a := IndexOf(text, startMarker, 0);
    var r := SliceBetween(text, startMarker, endMarker);
    if a == -1 {
      assert r == "";
    } else {
      var start := a + |startMarker|;
      assert FirstOccurrence(text, startMarker, a);
      assert Section(text, start, EndBound(text, endMarker, start), r);
      SectionPiece(text, start, EndBound(text, endMarker, start), r);
    }
  }

  lemma CatchesFallbackPiece(text: string, collageIdx: int)
    requires collageIdx == -1 || 0 <= collageIdx <= |text|
    ensures IsPiece(text, CatchesFallback(text, collageIdx))
  {
    var cs := IndexOf(text, CatchesMark, 0);
    if cs != -1 {
      var start := cs + |CatchesMark|;
      var e := if collageIdx != -1 then collageIdx else EndBound(text, Some(ExportMark), start);
      if e >= start {
        assert CatchesFallback(text, collageIdx) == TrimSlice(text, start, e);
        SectionPiece(text, start, e, CatchesFallback(text, collageIdx));
      }
    }
  }

  lemma CatchesSectionPiece(text: string)
    ensures IsPiece(text, CatchesSection(text))
    ensures IsPiece(text, CatchesSectionAsWritten(text))
  {
    var collageIdx := FindCollageStart(text);
    SliceBetweenPiece(text, CatchesMark, Some(ExportMark));
    SliceBetweenPiece(text, CatchesMark, None);
    CatchesFallbackPiece(text, collageIdx);
  }

  lemma ImportAndCollagePieces(text: string)
    ensures IsPiece(text, FindImportBlock(text))
    ensures FindCollageStart(text) != -1 ==>
      IsPiece(text, SliceFromIndexToMarker(text, FindCollageStart(text), Some(ExportMark)))
  {
    var collageIdx := FindCollageStart(text);
    var b := IndexOf(text, SectionBanner, 0);
    if b != -1 {
      assert FirstOccurrence(text, SectionBanner, b);
      SectionPiece(text, 0, b, FindImportBlock(text));
    }
    if collageIdx != -1 {
      SectionPiece(text, collageIdx, EndBound(text, Some(ExportMark), collageIdx),
        SliceFromIndexToMarker(text, collageIdx, Some(ExportMark)));
    }
  }

  /** The sections the splitter writes out. */
  datatype Sections = Sections(
    imports: string, pwa: string, dom: string, trips: string, gps: string,
    catches: string, collage: string, exportImport: string, boot: string)

  /** The whole split as split.js computes it, its catches section being `catchesFixed`.
      Every section is a trimmed piece of the text. */
  function SplitSections(text: string): (r: Sections)
    ensures IsPiece(text, r.imports) && IsPiece(text, r.pwa) && IsPiece(text, r.dom)
    ensures IsPiece(text, r.trips) && IsPiece(text, r.gps) && IsPiece(text, r.catches)
    ensures IsPiece(text, r.collage) && IsPiece(text, r.exportImport) && IsPiece(text, r.boot)
    ensures r.catches == CatchesSectionAsWritten(text)
  {
    var collageIdx := FindCollageStart(text);
    ImportAndCollagePieces(text);
    SliceBetweenPiece(text, PwaMark, Some(DomMark));
    SliceBetweenPiece(text, DomMark, Some(TripsMark));
    SliceBetweenPiece(text, TripsMark, Some(GpsMark));
    SliceBetweenPiece(text, GpsMark, Some(CatchesMark));
    SliceBetweenPiece(text, ExportMark, Some(BootMark));
    SliceBetweenPiece(text, BootMark, None);
    CatchesSectionPiece(text);
    Sections(
      FindImportBlock(text),
      SliceBetween(text, PwaMark, Some(DomMark)),
      SliceBetween(text, DomMark, Some(TripsMark)),
      SliceBetween(text, TripsMark, Some(GpsMark)),
      SliceBetween(text, GpsMark, Some(CatchesMark)),
      CatchesSectionAsWritten(text),
      if collageIdx != -1 then SliceFromIndexToMarker(text, collageIdx, Some(ExportMark)) else "",
      SliceBetween(text, ExportMark, Some(BootMark)),
      SliceBetween(text, BootMark, None))
  }

  /** The corrected split: the catches section ends at the collage start (or at the Export
      banner without one); every other section is the one split.js computes. Every section
      is a trimmed piece of the text. */
  function SplitSectionsCorrected(text: string): (r: Sections)
    ensures IsPiece(text, r.catches)
    ensures r.catches == CatchesSection(text)
    ensures r.(catches := CatchesSectionAsWritten(text)) == SplitSections(text)
  {
    CatchesSectionPiece(text);
    SplitSections(text).(catches := CatchesSection(text))
  }
}

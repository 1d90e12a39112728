/** File-name helpers of the exporters in storage.js: the photo extension guessed from a
    media type (guessExt) and the download name of a trip zip (safeTripFilename). */
module Names {
  import opened Text
  import opened Records

  /** guessExt: "png" when the lower-cased media type mentions png, else "webp" when it
      mentions webp, else "jpg". */
  function GuessExt(mime: string): (ext: string)
    ensures Contains(LowerAscii(mime), "png") ==> ext == "png"
    ensures !Contains(LowerAscii(mime), "png") && Contains(LowerAscii(mime), "webp") ==> ext == "webp"
    ensures ext == "jpg" <==> !Contains(LowerAscii(mime), "png") && !Contains(LowerAscii(mime), "webp")
    ensures ext == "png" || ext == "webp" || ext == "jpg"
  {
    var m := LowerAscii(mime);
    if Contains(m, "png") then "png"
    else if Contains(m, "webp") then "webp"
    else "jpg"
  }

  lemma {:induction false} LowerAsciiIdempotent(s: string)
    ensures LowerAscii(LowerAscii(s)) == LowerAscii(s)
  {
    var l := LowerAscii(s);
    assert forall i :: 0 <= i < |l| ==> LowerChar(l[i]) == l[i];
  }

  /** The guess ignores the case of the media type. */
  lemma GuessExtIgnoresCase(mime: string)
    ensures GuessExt(LowerAscii(mime)) == GuessExt(mime)
  {
    LowerAsciiIdempotent(mime);
  }

  predicate IsSlugChar(c: char) {
    'a' <= c <= 'z' || '0' <= c <= '9' || c == '-'
  }

  ghost predicate NoDoubleDash(s: string) {
    forall i :: 0 <= i < |s| - 1 ==> !(s[i] == '-' && s[i + 1] == '-')
  }

  /** What the slug of a trip file name is made of. */
  ghost predicate IsSlug(s: string) {
    (forall i :: 0 <= i < |s| ==> IsSlugChar(s[i])) && NoDoubleDash(s)
  }

  /** `.replace(/\s+/g, "-")`: each run of white space becomes one dash. */
  function DashSpaceRuns(s: string): (r: string)
    ensures forall i :: 0 <= i < |r| ==> !IsJsSpace(r[i])
    ensures (forall i :: 0 <= i < |s| ==> !IsJsSpace(s[i])) ==> r == s
    decreases |s|
  {
    if s == [] then []
    else if IsJsSpace(s[0]) then "-" + DashSpaceRuns(s[LeadingSpaces(s)..])
    else [s[0]] + DashSpaceRuns(s[1..])
  }

  /** `.replace(/[^a-z0-9\-]/g, "")`: keeps only lower-case ASCII letters, digits and dashes. */
  function KeepSlugChars(s: string): (r: string)
    ensures |r| <= |s|
    ensures forall i :: 0 <= i < |r| ==> IsSlugChar(r[i])
    ensures (forall i :: 0 <= i < |s| ==> IsSlugChar(s[i])) ==> r == s
  {
    if s == [] then []
    else if IsSlugChar(s[0]) then [s[0]] + KeepSlugChars(s[1..])
    else KeepSlugChars(s[1..])
  }

  /** Number of dashes at the start of `s`. */
  function LeadingDashes(s: string): (n: nat)
    ensures n <= |s|
    ensures forall i :: 0 <= i < n ==> s[i] == '-'
    ensures n < |s| ==> s[n] != '-'
  {
    if s == [] || s[0] != '-' then 0 else 1 + LeadingDashes(s[1..])
  }

  /** `.replace(/\-+/g, "-")`: each run of dashes becomes one dash. */
  function CollapseDashes(s: string): (r: string)
    ensures |r| <= |s|
    ensures NoDoubleDash(r)
    ensures (|r| > 0 && r[0] == '-') <==> (|s| > 0 && s[0] == '-')
    ensures (forall i :: 0 <= i < |s| ==> IsSlugChar(s[i])) ==> forall i :: 0 <= i < |r| ==> IsSlugChar(r[i])
    ensures NoDoubleDash(s) ==> r == s
    decreases |s|
  {
    if s == [] then []
    else if s[0] == '-' then
      var n := LeadingDashes(s);
      var rest := CollapseDashes(s[n..]);
      assert NoDoubleDash(s) && |s| > 1 ==> !(s[0] == '-' && s[1] == '-');
      "-" + rest
    else
      var rest := CollapseDashes(s[1..]);
      [s[0]] + rest
  }

  /** The dashes of `s` deleted one character at a time: a dash is dropped exactly when the
      character before it (or `afterDash` for the first one) is a dash. */
  function DropRepeatDashes(s: string, afterDash: bool): (r: string)
    ensures |r| <= |s|
  {
    if s == [] then []
    else if s[0] == '-' && afterDash then DropRepeatDashes(s[1..], true)
    else [s[0]] + DropRepeatDashes(s[1..], s[0] == '-')
  }

  /** After a dash, a run of dashes is dropped whole. */
  lemma {:induction false} DropDashRun(s: string, k: nat)
    requires k <= |s| && forall i :: 0 <= i < k ==> s[i] == '-'
    ensures DropRepeatDashes(s, true) == DropRepeatDashes(s[k..], true)
  {
    if k > 0 {
      assert s[1..][k - 1..] == s[k..];
      DropDashRun(s[1..], k - 1);
    }
  }

  /** `.replace(/\-+/g, "-")` deletes exactly the dashes that directly follow a dash: every
      run of dashes becomes its first dash and nothing else changes. */
  lemma {:induction false} CollapseDashesDropsRepeats(s: string)
    ensures CollapseDashes(s) == DropRepeatDashes(s, false)
    decreases |s|
  {
    if s != [] {
      if s[0] == '-' {
        var n := LeadingDashes(s);
        DropDashRun(s[1..], n - 1);
        assert s[1..][n - 1..] == s[n..];
        CollapseDashesDropsRepeats(s[n..]);
      } else {
        CollapseDashesDropsRepeats(s[1..]);
      }
    }
  }

  /** The slug of safeTripFilename: at most 48 characters, "trip" when nothing is left. */
  function Slug(place: string): (slug: string)
    ensures 0 < |slug| <= 48
    ensures IsSlug(slug)
  {
    var c := CollapseDashes(KeepSlugChars(DashSpaceRuns(LowerAscii(place))));
    var cut := if |c| <= 48 then c else c[..48];
    if cut == [] then "trip" else cut
  }

  /** A slug is its own slug. */
  lemma SlugIdempotent(place: string)
    ensures Slug(Slug(place)) == Slug(place)
  {
    var s := Slug(place);
    var l := LowerAscii(s);
    assert l == s;
    var d := DashSpaceRuns(l);
    assert d == s;
    var k := KeepSlugChars(d);
    assert k == s;
    assert CollapseDashes(k) == s;
  }

  /** The place a trip file is named after: the trimmed location, or else the trimmed name
      ("trip" when the name is empty). */
  function Place(t: Trip): string {
    var loc := Trim(t.location);
    if loc != [] then loc else Trim(if t.name == "" then "trip" else t.name)
  }

  /** The date part: the trimmed trip date, or else the ISO day of `createdAt`, or of `now`
      when `createdAt` is missing or 0. */
  function DatePart(t: Trip, now: int, isoDay: int -> string): (d: string)
    ensures Trim(t.date) != [] ==> d == Trim(t.date)
    ensures Trim(t.date) == [] && t.createdAt.Some? && t.createdAt.value != 0 ==> d == isoDay(t.createdAt.value)
    ensures Trim(t.date) == [] && (t.createdAt.None? || t.createdAt.value == 0) ==> d == isoDay(now)
  {
    var d := Trim(t.date);
    if d != [] then d
    else isoDay(if t.createdAt.Some? && t.createdAt.value != 0 then t.createdAt.value else now)
  }

  /** safeTripFilename: `<date>_<slug>_riverlog.zip`. */
  function SafeTripFilename(t: Trip, now: int, isoDay: int -> string): (name: string)
    ensures var d := DatePart(t, now, isoDay);
      |d| + 15 <= |name| <= |d| + 62
      && name[..|d| + 1] == d + "_"
      && name[|name| - 13..] == "_riverlog.zip"
      && IsSlug(name[|d| + 1..|name| - 13])
      && name[|d| + 1..|name| - 13] == Slug(Place(t))
  {
    var d := DatePart(t, now, isoDay);
    var slug := Slug(Place(t));
    var name := d + "_" + slug + "_riverlog.zip";
    assert name[..|d| + 1] == d + "_";
    assert name[|d| + 1..|name| - 13] == slug;
    name
  }
}

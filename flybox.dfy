/** The fly box (quiver) helpers of js/ui/flybox.js: parsing of the size and quantity inputs,
    the label lines of a fly, the box total, the save lock, and the row the add/update
    button builds. */
module FlyBox {
  import opened Wrappers
  import opened Text
  import opened Utils

  /** A fly row. `qty` is `None` when the stored value is not a number. */
  datatype Fly = Fly(
    id: string,
    boxId: string,
    flyType: string,
    pattern: string,
    size: string,
    qty: Option<int>,
    colors: string,
    photo: string,
    createdAt: Option<int>,
    updatedAt: Option<int>)

  /** The digit characters of `s`, in order (`\d` is ASCII only). */
  function KeepDigits(s: string): (r: string)
    ensures forall i :: 0 <= i < |r| ==> IsDigit(r[i])
    ensures |r| <= |s|
    decreases |s|
  {
    if s == [] then []
    else if IsDigit(s[|s| - 1]) then KeepDigits(s[..|s| - 1]) + [s[|s| - 1]]
    else KeepDigits(s[..|s| - 1])
  }

  lemma {:induction false} KeepDigitsAppend(a: string, b: string)
    ensures KeepDigits(a + b) == KeepDigits(a) + KeepDigits(b)
    decreases |b|
  {
    if b != [] {
      var b' := b[..|b| - 1];
      assert (a + b)[..|a + b| - 1] == a + b';
      KeepDigitsAppend(a, b');
    } else {
      assert a + b == a;
    }
  }

  lemma {:induction false} KeepDigitsOfSpace(s: string)
    requires AllSpace(s)
    ensures KeepDigits(s) == []
    decreases |s|
  {
    if s != [] {
      KeepDigitsOfSpace(s[..|s| - 1]);
    }
  }

  /** parseSize: the trimmed input with every non-digit removed. */
  function ParseSize(v: string): (size: string)
    ensures size == KeepDigits(v)
    ensures forall i :: 0 <= i < |size| ==> IsDigit(size[i])
  {
    var t := Trim(v);
    var lo := LeadingSpaces(v);
    var hi := lo + |t|;
    assert v == v[..lo] + t + v[hi..];
    KeepDigitsAppend(v[..lo] + t, v[hi..]);
    KeepDigitsAppend(v[..lo], t);
    KeepDigitsOfSpace(v[..lo]);
    KeepDigitsOfSpace(v[hi..]);
    KeepDigits(t)
  }

  predicate AllDigits(s: string) {
    forall i | 0 <= i < |s| :: IsDigit(s[i])
  }

  function DigitValue(c: char): (d: nat)
    requires IsDigit(c)
    ensures d < 10
  {
    c as int - '0' as int
  }

  /** The value of a decimal digit string. */
  function DigitsValue(s: string): nat
    requires AllDigits(s)
    decreases |s|
  {
    if s == [] then 0 else 10 * DigitsValue(s[..|s| - 1]) + DigitValue(s[|s| - 1])
  }

  /** `Number(r)` for a string made of digits and dashes: "" is 0, an optionally negated
      digit string is its value, anything else is NaN (`None`). */
  function NumberOf(r: string): (n: Option<int>)
    ensures r == "" ==> n == Some(0)
    ensures r != "" && AllDigits(r) ==> n == Some(DigitsValue(r))
    ensures |r| > 1 && r[0] == '-' && AllDigits(r[1..]) ==> n == Some(-(DigitsValue(r[1..]) as int))
    ensures n.Some? ==> r == "" || AllDigits(r) || (|r| > 1 && r[0] == '-' && AllDigits(r[1..]))
  {
    if r == "" then Some(0)
    else if AllDigits(r) then Some(DigitsValue(r))
    else if |r| > 1 && r[0] == '-' && AllDigits(r[1..]) then Some(-(DigitsValue(r[1..]) as int))
    else None
  }

  predicate IsQtyChar(c: char) {
    IsDigit(c) || c == '-'
  }

  /** `.replace(/[^\d\-]+/g, "")`. */
  function QtyResidue(s: string): (r: string)
    ensures forall i :: 0 <= i < |r| ==> IsQtyChar(r[i])
    ensures (forall i :: 0 <= i < |s| ==> IsQtyChar(s[i])) ==> r == s
  {
    if s == [] then []
    else if IsQtyChar(s[0]) then [s[0]] + QtyResidue(s[1..])
    else QtyResidue(s[1..])
  }

  /** parseQty: the number the digit/dash residue spells, floored at 0; 0 when it spells
      no number. */
  function ParseQty(v: string): (q: int)
    ensures q >= 0
    ensures NumberOf(QtyResidue(v)).None? ==> q == 0
    ensures QtyResidue(v) == "" ==> q == 0
    ensures QtyResidue(v) != "" && AllDigits(QtyResidue(v)) ==> q == DigitsValue(QtyResidue(v))
    ensures |QtyResidue(v)| > 0 && QtyResidue(v)[0] == '-' ==> q == 0
  {
    match NumberOf(QtyResidue(v))
    case None => 0
    case Some(n) => if n < 0 then 0 else n
  }

  /** A few inputs of the quantity field. */
  lemma ParseQtyExamples()
    ensures ParseQty("x12") == 12
    ensures ParseQty("-") == 0 && ParseQty("--3") == 0 && ParseQty("3-3") == 0
    ensures ParseQty("-7") == 0
  {
    assert QtyResidue("x12") == "12";
    assert DigitsValue("12") == 10 * DigitsValue("1") + 2;
    assert QtyResidue("3-3") == "3-3" && !AllDigits("3-3");
    assert QtyResidue("--3") == "--3" && !AllDigits("-3");
  }

  /** The decimal notation of a count, as a number input shows it. */
  function DecimalString(n: nat): (s: string)
    ensures s != [] && AllDigits(s)
    decreases n
  {
    var d := ['0' + (n % 10) as char];
    if n < 10 then d else DecimalString(n / 10) + d
  }

  lemma {:induction false} DigitsValueOfDecimal(n: nat)
    ensures DigitsValue(DecimalString(n)) == n
    decreases n
  {
    var s := DecimalString(n);
    if n >= 10 {
      DigitsValueOfDecimal(n / 10);
      assert s[..|s| - 1] == DecimalString(n / 10);
    }
  }

  /** Typing a count into the quantity field gives that count back. */
  lemma ParseQtyOfDecimal(n: nat)
    ensures ParseQty(DecimalString(n)) == n
  {
    DigitsValueOfDecimal(n);
  }

  /** flyLabel: "type • pattern • #size"; "-" stands for a blank type or pattern and
      "#-" for a blank size. */
  function FlyLabel(f: Fly): (line: string)
    ensures line ==
      (if AllSpace(f.flyType) then "-" else Trim(f.flyType)) + " • "
      + (if AllSpace(f.pattern) then "-" else Trim(f.pattern)) + " • #"
      + (if AllSpace(f.size) then "-" else Trim(f.size))
  {
    var t := SafeText(Some(f.flyType));
    var p := SafeText(Some(f.pattern));
    var szRaw := Trim(f.size);
    var sz := if szRaw != "" then "#" + szRaw else "#-";
    assert "#" + szRaw == ['#'] + szRaw;
    t + " • " + p + " • " + sz
  }

  /** flySub: the trimmed colours, or an em dash when there are none. */
  function FlySub(f: Fly): (sub: string)
    ensures sub != ""
    ensures AllSpace(f.colors) ==> sub == "—"
    ensures !AllSpace(f.colors) ==> sub == Trim(f.colors) && Trimmed(sub)
  {
    var c := Trim(f.colors);
    if c != "" then c else "—"
  }

  /** `Number(f.qty) || 0`. */
  function QtyOf(f: Fly): int {
    f.qty.GetOr(0)
  }

  /** The `totalQty` reduce of refreshFlyMeta, from the first fly to the last. */
  function TotalQty(flies: seq<Fly>): int
    decreases |flies|
  {
    if flies == [] then 0 else TotalQty(flies[..|flies| - 1]) + QtyOf(flies[|flies| - 1])
  }

  /** The total of two lists of flies is the sum of their totals. */
  lemma {:induction false} TotalQtyAppend(a: seq<Fly>, b: seq<Fly>)
    ensures TotalQty(a + b) == TotalQty(a) + TotalQty(b)
    decreases |b|
  {
    if b == [] {
      assert a + b == a;
    } else {
      var b' := b[..|b| - 1];
      assert (a + b)[..|a + b| - 1] == a + b';
      TotalQtyAppend(a, b');
    }
  }

  /** Flies saved by the add/update button (qty from parseQty) never make the total negative. */
  lemma {:induction false} TotalQtyNonNegative(flies: seq<Fly>)
    requires forall i :: 0 <= i < |flies| ==> flies[i].qty.None? || flies[i].qty.value >= 0
    ensures TotalQty(flies) >= 0
    decreases |flies|
  {
    if flies != [] {
      TotalQtyNonNegative(flies[..|flies| - 1]);
    }
  }

  /** What the wrapped function did once it ran. */
  datatype LockResult = Skipped | Completed | Raised

  /** The module-level `_saveLock` flag and the `withLock` wrapper around fly-box writes. */
  class SaveLock {
    var locked: bool
    /** How many times a wrapped function has been started. */
    var runs: nat

    constructor()
      ensures !locked && runs == 0
    {
      locked := false;
      runs := 0;
    }

    /** The synchronous part of withLock before its first await: a held lock turns the
        call away; a free one is taken. */
    method Enter() returns (entered: bool)
      modifies this
      ensures entered <==> !old(locked)
      ensures locked
      ensures runs == old(runs)
    {
      if locked {
        return false;
      }
      locked := true;
      entered := true;
    }

    /** The `finally` clause. */
    method Exit()
      modifies this
      ensures !locked && runs == old(runs)
    {
      locked := false;
    }

    /** withLock(fn): fn runs only when the lock is free, and the lock is free again
        whether fn returns or throws. */
    method WithLock(fnThrows: bool) returns (r: LockResult)
      modifies this
      ensures old(locked) ==> r == Skipped && locked && runs == old(runs)
      ensures !old(locked) ==> !locked && runs == old(runs) + 1
      ensures !old(locked) ==> r == (if fnThrows then Raised else Completed)
    {
      var entered := Enter();
      if !entered {
        return Skipped;
      }
      runs := runs + 1;
      Exit();
      r := if fnThrows then Raised else Completed;
    }
  }

  /** A tap that arrives while a save is still running is turned away, and the lock is
      free once that save has finished. */
  method OverlappingTaps() returns (first: bool, second: bool)
    ensures first && !second
  {
    var lock := new SaveLock();
    first := lock.Enter();
    var r := lock.WithLock(false);
    second := r != Skipped;
    lock.Exit();
    var again := lock.WithLock(false);
    assert again == Completed && !lock.locked;
  }

  datatype FlyError = NoBoxPicked | PatternAndSizeRequired

  /** The row the add/update button saves: refused without a box, or when the pattern or
      the parsed size is blank; otherwise the editing id (or a fresh one), the trimmed
      fields, qty from parseQty, and on an edit the stored `createdAt` and photo unless a
      new photo was picked. `existing` is what getFly returned (`None` when it failed) and
      `picked` the data URL of a newly picked photo that could be read. */
  method BuildFlyRow(boxId: string, editingId: string, typeIn: string, patternIn: string,
                     sizeIn: string, qtyIn: string, colorsIn: string,
                     existing: Option<Fly>, picked: Option<string>, now: int, newId: string)
    returns (r: Result<Fly, FlyError>)
    ensures boxId == "" ==> r == Failure(NoBoxPicked)
    ensures boxId != "" && (AllSpace(patternIn) || KeepDigits(sizeIn) == "") ==> r == Failure(PatternAndSizeRequired)
    ensures r.Success? <==> boxId != "" && !AllSpace(patternIn) && KeepDigits(sizeIn) != ""
    ensures r.Success? ==>
      var f := r.value;
      f.id == (if editingId != "" then editingId else newId)
      && f.boxId == boxId && f.flyType == Trim(typeIn) && f.pattern == Trim(patternIn) && Trimmed(f.pattern)
      && f.size == KeepDigits(sizeIn) && f.qty == Some(ParseQty(qtyIn)) && f.qty.value >= 0
      && f.colors == Trim(colorsIn) && f.updatedAt == Some(now)
    ensures (r.Success? && editingId != "" && existing.Some? && existing.value.createdAt.Some?
             && existing.value.createdAt.value != 0) ==> r.value.createdAt == existing.value.createdAt
    ensures (r.Success? && (editingId == "" || existing.None? || existing.value.createdAt.None?
             || existing.value.createdAt.value == 0)) ==> r.value.createdAt == Some(now)
    ensures r.Success? && picked.Some? ==> r.value.photo == picked.value
    ensures r.Success? && picked.None? && editingId != "" && existing.Some? ==> r.value.photo == existing.value.photo
    ensures r.Success? && picked.None? && (editingId == "" || existing.None?) ==> r.value.photo == ""
  {
    if boxId == "" {
      return Failure(NoBoxPicked);
    }
    var flyType := Trim(typeIn);
    var pattern := Trim(patternIn);
    var size := ParseSize(sizeIn);
    var qty := ParseQty(qtyIn);
    var colors := Trim(colorsIn);
    if pattern == "" || size == "" {
      return Failure(PatternAndSizeRequired);
    }
    var wasEditing := editingId != "";
    var createdAt := now;
    var existingPhoto := "";
    if wasEditing && existing.Some? {
      if existing.value.createdAt.Some? && existing.value.createdAt.value != 0 {
        createdAt := existing.value.createdAt.value;
      }
      if existing.value.photo != "" {
        existingPhoto := existing.value.photo;
      }
    }
    var photo := existingPhoto;
    if picked.Some? {
      photo := picked.value;
    }
    var id := if wasEditing then editingId else newId;
    r := Success(Fly(id, boxId, flyType, pattern, size, Some(qty), colors, photo, Some(createdAt), Some(now)));
  }
}

/** The badges of js/badges.js: the badge table, the unlock rules of evaluateAndUnlock, and
    the "newly unlocked" toast. The unlocked map kept in localStorage and the `_prev`
    snapshot are the fields of a board object. */
module Badges {
  import opened Wrappers
  import opened Records
  import opened Listing
  import opened Store

  datatype Badge = Badge(id: string, title: string, desc: string)

  /** The badge table, in display order (icons left out). */
  const BADGES: seq<Badge> := [
    Badge("first_trip", "First Trip", "Created your first trip"),
    Badge("three_trips", "3 Trips", "Created 3 trips"),
    Badge("first_catch", "First Catch", "Logged your first catch"),
    Badge("ten_catches", "10 Catches", "Logged 10 catches"),
    Badge("twentyfive_catches", "25 Catches", "Logged 25 catches"),
    Badge("first_photo", "First Photo", "Logged a catch photo"),
    Badge("first_gps", "First GPS", "Logged GPS for a catch"),
    Badge("first_collage", "First Collage", "Built your first trip collage"),
    Badge("big_fish", "Big Fish", "Logged a fish 18\" or longer"),
    Badge("fly_box_builder", "Fly Box Builder", "Built your first fly box"),
    Badge("knot_maestro", "Knot Maestro", "Tied a rock-solid knot"),
    Badge("dawn_patrol", "Dawn Patrol", "Hit the water at sunrise")
  ]

  /** The badges evaluateAndUnlock can set. */
  const RuleIds: set<string> := {"first_trip", "three_trips", "first_catch", "ten_catches",
    "twentyfive_catches", "first_photo", "first_gps", "big_fish", "first_collage"}

  /** `!!unlocked[id]`. */
  predicate On(m: map<string, bool>, id: string) {
    id in m && m[id]
  }

  predicate HasPhoto(cs: seq<Catch>) {
    exists i | 0 <= i < |cs| :: cs[i].photo.Some?
  }

  /** Some catch has a GPS fix whose latitude is a number. */
  predicate HasGps(cs: seq<Catch>) {
    exists i | 0 <= i < |cs| :: cs[i].fields.gps.Some? && cs[i].fields.gps.value.lat.Some?
  }

  /** Some catch measures 18 or more under `parseLen`. */
  predicate HasBigFish(cs: seq<Catch>, parseLen: string -> real) {
    exists i | 0 <= i < |cs| :: parseLen(cs[i].fields.length) >= 18.0
  }

  /** The loaded map with every id of `g` set to true. */
  function GrantAll(m: map<string, bool>, g: set<string>): (u: map<string, bool>)
    ensures forall k :: k in u <==> k in m || k in g
    ensures forall k :: On(u, k) <==> k in g || On(m, k)
    ensures forall k :: k in m && k !in g ==> u[k] == m[k]
  {
    map k | k in m.Keys + g :: if k in g then true else m[k]
  }

  lemma GrantNone(m: map<string, bool>)
    ensures GrantAll(m, {}) == m
  {
  }

  lemma GrantOne(m: map<string, bool>, g: set<string>, id: string)
    ensures GrantAll(m, g)[id := true] == GrantAll(m, g + {id})
  {
  }

  /** Granting twice grants nothing more. */
  lemma GrantTwice(m: map<string, bool>, g: set<string>)
    ensures GrantAll(GrantAll(m, g), g) == GrantAll(m, g)
  {
  }

  /** The rule block of evaluateAndUnlock as a table: each badge id with its condition. */
  function Rules(tripCount: nat, cs: seq<Catch>, event: string, parseLen: string -> real): seq<(string, bool)> {
    [("first_trip", tripCount >= 1), ("three_trips", tripCount >= 3),
     ("first_catch", |cs| >= 1), ("ten_catches", |cs| >= 10), ("twentyfive_catches", |cs| >= 25),
     ("first_photo", HasPhoto(cs)), ("first_gps", HasGps(cs)), ("big_fish", HasBigFish(cs, parseLen)),
     ("first_collage", event == "collage_built")]
  }

  /** The ids of the rules whose condition holds. */
  function Holding(rules: seq<(string, bool)>): set<string> {
    set i | 0 <= i < |rules| && rules[i].1 :: rules[i].0
  }

  /** The badges the rules grant for the given trips, catches and event. */
  function Granted(tripCount: nat, cs: seq<Catch>, event: string, parseLen: string -> real): (g: set<string>)
    ensures g <= RuleIds
  {
    Holding(Rules(tripCount, cs, event, parseLen))
  }

  /** The unlock rules, one per badge. */
  lemma GrantedRules(tripCount: nat, cs: seq<Catch>, event: string, parseLen: string -> real)
    ensures var g := Granted(tripCount, cs, event, parseLen);
      ("first_trip" in g <==> tripCount >= 1)
      && ("three_trips" in g <==> tripCount >= 3)
      && ("first_catch" in g <==> |cs| >= 1)
      && ("ten_catches" in g <==> |cs| >= 10)
      && ("twentyfive_catches" in g <==> |cs| >= 25)
      && ("first_photo" in g <==> HasPhoto(cs))
      && ("first_gps" in g <==> HasGps(cs))
      && ("big_fish" in g <==> HasBigFish(cs, parseLen))
      && ("first_collage" in g <==> event == "collage_built")
  {
    var rules := Rules(tripCount, cs, event, parseLen);
    forall i | 0 <= i < |rules| ensures rules[i].0 in Holding(rules) <==> rules[i].1 {
      forall j | 0 <= j < |rules| && rules[j].0 == rules[i].0 ensures j == i {
      }
    }
    assert rules[0].0 == "first_trip" && rules[1].0 == "three_trips" && rules[2].0 == "first_catch";
    assert rules[3].0 == "ten_catches" && rules[4].0 == "twentyfive_catches" && rules[5].0 == "first_photo";
    assert rules[6].0 == "first_gps" && rules[7].0 == "big_fish" && rules[8].0 == "first_collage";
  }

  /** The rules of evaluateAndUnlock applied to the loaded map: badges are only ever added,
      and only the badges of the rules. */
  function Unlock(loaded: map<string, bool>, tripCount: nat, cs: seq<Catch>, event: string,
                  parseLen: string -> real): (u: map<string, bool>)
    ensures forall k :: k in loaded ==> k in u
    ensures forall k :: On(loaded, k) ==> On(u, k)
    ensures forall k :: k !in RuleIds ==> (k in u <==> k in loaded) && (k in loaded ==> u[k] == loaded[k])
    ensures forall k :: On(u, k) <==> k in Granted(tripCount, cs, event, parseLen) || On(loaded, k)
  {
    GrantAll(loaded, Granted(tripCount, cs, event, parseLen))
  }

  /** Evaluating again on the same data changes nothing. */
  lemma UnlockIdempotent(loaded: map<string, bool>, tripCount: nat, cs: seq<Catch>, event: string,
                         parseLen: string -> real)
    ensures var u := Unlock(loaded, tripCount, cs, event, parseLen);
      Unlock(u, tripCount, cs, event, parseLen) == u
  {
    GrantTwice(loaded, Granted(tripCount, cs, event, parseLen));
  }

  /** The first badge, in table order, that is on in `after` and was not on in `prev`. */
  function FirstNew(badges: seq<Badge>, after: map<string, bool>, prev: map<string, bool>): (r: Option<Badge>)
    ensures r.None? ==> forall i :: 0 <= i < |badges| ==> !On(after, badges[i].id) || On(prev, badges[i].id)
    ensures r.Some? ==>
      exists i :: (0 <= i < |badges| && badges[i] == r.value && On(after, badges[i].id) && !On(prev, badges[i].id)
                   && forall j :: 0 <= j < i ==> !On(after, badges[j].id) || On(prev, badges[j].id))
  {
    if badges == [] then None
    else if On(after, badges[0].id) && !On(prev, badges[0].id) then Some(badges[0])
    else
      FirstNew(badges[1..], after, prev)
  }

  /** The toast of evaluateAndUnlock: only when the map gained keys, naming the first badge
      unlocked since the last snapshot. */
  function Toast(before: map<string, bool>, after: map<string, bool>, prev: map<string, bool>): (t: Option<Badge>)
    ensures |after| <= |before| ==> t.None?
    ensures t.Some? ==> t.value in BADGES && On(after, t.value.id) && !On(prev, t.value.id)
  {
    if |after| > |before| then FirstNew(BADGES, after, prev) else None
  }

  /** The catches of every listed trip, one trip after another. */
  ghost function CatchesOfTrips(trips: seq<Trip>, catches: map<string, Catch>): seq<Catch>
    requires KeyedBy(catches, CatchKey)
    decreases |trips|
  {
    if trips == [] then []
    else CatchesOfTrips(trips[..|trips| - 1], catches) + CatchListing(catches, trips[|trips| - 1].id)
  }

  /** A catch is counted exactly when it belongs to one of the trips. Catches whose trip is
      gone are not counted. */
  lemma {:induction false} CatchesOfTripsMembers(trips: seq<Trip>, catches: map<string, Catch>)
    requires KeyedBy(catches, CatchKey)
    ensures forall c :: c in CatchesOfTrips(trips, catches) <==>
      c in catches.Values && exists i :: 0 <= i < |trips| && trips[i].id == c.TripId()
    decreases |trips|
  {
    if trips != [] {
      var init := trips[..|trips| - 1];
      CatchesOfTripsMembers(init, catches);
      forall c | c in catches.Values && (exists i :: 0 <= i < |trips| && trips[i].id == c.TripId())
        ensures c in CatchesOfTrips(trips, catches)
      {
        var i :| 0 <= i < |trips| && trips[i].id == c.TripId();
        if i < |trips| - 1 { assert init[i] == trips[i]; }
      }
      forall c | c in CatchesOfTrips(trips, catches)
        ensures exists i :: 0 <= i < |trips| && trips[i].id == c.TripId()
      {
        if c in CatchesOfTrips(init, catches) {
          var i :| 0 <= i < |init| && init[i].id == c.TripId();
          assert trips[i] == init[i];
        }
      }
    }
  }

  /** Sets to true, one after another, each badge of the table whose condition holds. */
  method ApplyTable(loaded: map<string, bool>, rules: seq<(string, bool)>) returns (unlocked: map<string, bool>)
    ensures unlocked == GrantAll(loaded, Holding(rules))
  {
    unlocked := loaded;
    GrantNone(loaded);
    for i := 0 to |rules|
      invariant unlocked == GrantAll(loaded, Holding(rules[..i]))
    {
      assert rules[..i + 1] == rules[..i] + [rules[i]];
      if rules[i].1 {
        GrantOne(loaded, Holding(rules[..i]), rules[i].0);
        assert Holding(rules[..i + 1]) == Holding(rules[..i]) + {rules[i].0};
        unlocked := unlocked[rules[i].0 := true];
      } else {
        assert Holding(rules[..i + 1]) == Holding(rules[..i]);
      }
    }
    assert rules[..|rules|] == rules;
  }

  /** The rule block of evaluateAndUnlock. */
  method ApplyRules(loaded: map<string, bool>, tripCount: nat, cs: seq<Catch>, event: string,
                    parseLen: string -> real) returns (unlocked: map<string, bool>)
    ensures unlocked == Unlock(loaded, tripCount, cs, event, parseLen)
  {
    unlocked := ApplyTable(loaded, Rules(tripCount, cs, event, parseLen));
  }

  /** The board state of js/badges.js. */
  class BadgeBoard {
    /** The unlocked map kept under "riverlog_badges_v1". */
    var stored: map<string, bool>
    /** The `loadUnlocked._prev` snapshot (empty until initBadges takes it). */
    var prev: map<string, bool>

    constructor(saved: map<string, bool>)
      ensures stored == saved && prev == map[]
    {
      stored := saved;
      prev := map[];
    }

    /** initBadges: the snapshot starts as the stored map. */
    method Init()
      modifies this
      ensures stored == old(stored) && prev == stored
    {
      prev := stored;
    }

    /** evaluateAndUnlock: collects every trip's catches, sets the badges the rules grant,
        stores the map, shows the toast, and takes the snapshot. */
    method EvaluateAndUnlock(store: RecordStore, event: string, parseLen: string -> real)
      returns (unlocked: map<string, bool>, toast: Option<Badge>)
      requires store.Valid()
      modifies this
      ensures unlocked == Unlock(old(stored), |store.trips|,
                                 CatchesOfTrips(TripListing(store.trips), store.catches), event, parseLen)
      ensures stored == unlocked && prev == unlocked
      ensures toast == Toast(old(stored), unlocked, old(prev))
    {
      var loaded, snapshot := stored, prev;
      var beforeCount := |loaded|;
      var trips := store.ListTrips();
      var all: seq<Catch> := [];
      for i := 0 to |trips|
        invariant all == CatchesOfTrips(trips[..i], store.catches)
      {
        var rows := store.ListCatches(trips[i].id);
        assert trips[..i + 1][..i] == trips[..i];
        all := all + rows;
      }
      assert trips[..|trips|] == trips;
      assert |trips| == |store.trips|;
      unlocked := ApplyRules(loaded, |trips|, all, event, parseLen);
      stored := unlocked;
      toast := None;
      if |unlocked| > beforeCount {
        toast := FirstNew(BADGES, unlocked, snapshot);
      }
      prev := unlocked;
    }
  }
}

/**
 The derived strips of the page (web/app.js, showStrips and loadStrip): a cache, a generation counter,
 and responses that land or fail in any order, whatever is selected, pinned, opened or closed meanwhile.
 */
module Strips {
  import opened Text

  type Name = string
  type Hex = string
  type Space = string

  const DERIVED: seq<Name> := ["complement", "split-complement", "triad", "analogous", "square", "ramp", "tones"]

  /** The names whose strip starts with the color itself, and whose request names the wheel. */
  const LEADING: set<Name> := {"complement", "split-complement", "triad", "analogous", "square"}

  /** What the server answers for a name, a hex and the wheel asked for, if one was. */
  type Api = (Name, Hex, Option<Space>) -> seq<Hex>

  datatype Entry = Entry(hex: Hex, space: Space, bands: seq<Hex>)
  datatype Request = Request(name: Name, hex: Hex, space: Space, generation: nat)

  /**
   `shown` has a key per block on the page, None for an empty strip. `togglePending` is a toggle event
   the browser has yet to fire. `failed` are the names whose request failed in this generation.
   */
  datatype State = State(
    pinned: seq<Name>,
    cache: map<Name, Entry>,
    generation: nat,
    stale: bool,
    selected: Option<Hex>,
    space: Space,
    open: bool,
    togglePending: bool,
    shown: map<Name, Option<seq<Hex>>>,
    requests: set<Request>,
    failed: set<Name>)

  datatype Event =
    | Select(hex: Option<Hex>)
    | Wheel(space: Space)
    | Pin(names: seq<Name>)
    | Fold(open: bool)
    | Toggle
    | Land(request: Request)
    | Fail(request: Request)

  function Bands(api: Api, name: Name, hex: Hex, space: Space): seq<Hex> {
    if name in LEADING then [hex] + api(name, hex, Some(space)) else api(name, hex, None)
  }

  // ---- the handlers as functions ----

  function Draw(shown: map<Name, Option<seq<Hex>>>, name: Name, bands: Option<seq<Hex>>): map<Name, Option<seq<Hex>>> {
    if name in shown then shown[name := bands] else shown
  }

  predicate Cached(s: State, name: Name, hex: Hex) {
    name in s.cache && s.cache[name].hex == hex && s.cache[name].space == s.space
  }

  function ShowOne(s: State, name: Name): State {
    match s.selected
    case None => s.(cache := s.cache - {name}, shown := Draw(s.shown, name, None))
    case Some(hex) =>
      if Cached(s, name, hex) then s.(shown := Draw(s.shown, name, Some(s.cache[name].bands)))
      else s.(requests := s.requests + {Request(name, hex, s.space, s.generation)})
  }

  function ShowAll(s: State, names: seq<Name>): State {
    if names == [] then s else ShowOne(ShowAll(s, names[..|names| - 1]), names[|names| - 1])
  }

  function Refreshed(s: State): State {
    if !s.open then s.(stale := true)
    else ShowAll(Begun(s), s.pinned)
  }

  /** What showStrips sets before its loop. */
  function Begun(s: State): State {
    s.(stale := false, generation := s.generation + 1, failed := {})
  }

  function Filter(all: seq<Name>, names: seq<Name>): (r: seq<Name>)
    ensures forall n :: n in r <==> n in all && n in names
  {
    if all == [] then []
    else
      var last := |all| - 1;
      if all[last] in names then Filter(all[..last], names) + [all[last]] else Filter(all[..last], names)
  }

  function Blocks(pinned: seq<Name>): map<Name, Option<seq<Hex>>> {
    map n | n in pinned :: None
  }

  function ApplyPinned(s: State, names: seq<Name>): State {
    var pinned := Filter(DERIVED, names);
    var s' := s.(pinned := pinned, shown := Blocks(pinned));
    if pinned == [] then s' else Refreshed(s')
  }

  function Landed(api: Api, s: State, r: Request): State {
    var s' := s.(requests := s.requests - {r});
    if r.generation != s.generation then s'
    else
      var bands := Bands(api, r.name, r.hex, r.space);
      s'.(cache := s.cache[r.name := Entry(r.hex, r.space, bands)], shown := Draw(s.shown, r.name, Some(bands)))
  }

  function Failed(s: State, r: Request): State {
    var s' := s.(requests := s.requests - {r});
    if r.generation != s.generation then s'
    else s'.(cache := s.cache - {r.name}, shown := Draw(s.shown, r.name, None), failed := s.failed + {r.name})
  }

  function Step(api: Api, s: State, e: Event): State {
    match e
    case Select(hex) => Refreshed(s.(selected := hex))
    case Wheel(space) => Refreshed(s.(space := space))
    case Pin(names) => ApplyPinned(s, names)
    case Fold(open) => s.(open := open, togglePending := s.togglePending || open != s.open)
    case Toggle =>
      if !s.togglePending then s
      else
        var s' := s.(togglePending := false);
        if s'.open && s'.stale then Refreshed(s') else s'
    case Land(r) => if r in s.requests then Landed(api, s, r) else s
    case Fail(r) => if r in s.requests then Failed(s, r) else s
  }

  function After(api: Api, start: State, run: seq<Event>): State {
    if run == [] then start else Step(api, After(api, start, run[..|run| - 1]), run[|run| - 1])
  }

  /** The page before its first events: nothing pinned, nothing selected, the section as it was left. */
  predicate Fresh(s: State) {
    && s.pinned == [] && s.cache == map[] && !s.stale && s.selected.None?
    && s.shown == map[] && s.requests == {} && s.failed == {}
  }

  // ---- what always holds ----

  ghost predicate CacheTrue(api: Api, s: State) {
    forall n | n in s.cache :: s.cache[n].bands == Bands(api, n, s.cache[n].hex, s.cache[n].space)
  }

  /** The strip of a pinned name is right, on its way, or failed. */
  ghost predicate Settled(api: Api, s: State, n: Name) {
    && n in s.shown
    && match s.selected
       case None => s.shown[n].None?
       case Some(hex) =>
         || s.shown[n] == Some(Bands(api, n, hex, s.space))
         || Request(n, hex, s.space, s.generation) in s.requests
         || n in s.failed
  }

  ghost predicate RequestsCurrent(s: State) {
    && (forall r | r in s.requests :: r.generation <= s.generation)
    && (!s.stale ==> forall r | r in s.requests && r.generation == s.generation ::
          s.selected == Some(r.hex) && s.space == r.space)
  }

  /** A strip that shows bands shows the cached ones: what its add button would add. */
  ghost predicate ShowsCached(shown: map<Name, Option<seq<Hex>>>, cache: map<Name, Entry>) {
    forall n | n in shown && shown[n].Some? :: n in cache && shown[n] == Some(cache[n].bands)
  }

  ghost predicate ShownIsCached(s: State) {
    (forall n :: n in s.shown <==> n in s.pinned) && ShowsCached(s.shown, s.cache)
  }

  /** An empty strip with a cache entry waits for its request: the entry is of another selection or wheel. */
  ghost predicate EmptyIsLoading(s: State, n: Name) {
    n in s.shown && s.shown[n].None? && n in s.cache ==>
      && s.selected.Some? && !Cached(s, n, s.selected.value)
      && Request(n, s.selected.value, s.space, s.generation) in s.requests
  }

  ghost predicate Inv(api: Api, s: State) {
    && CacheTrue(api, s)
    && RequestsCurrent(s)
    && ShownIsCached(s)
    && (!s.stale ==> forall n | n in s.pinned :: Settled(api, s, n) && EmptyIsLoading(s, n))
    && (s.open && s.stale ==> s.togglePending)
  }

  /** What the loop of showStrips keeps while it runs. */
  ghost predicate LoopInv(api: Api, s: State) {
    CacheTrue(api, s) && RequestsCurrent(s) && ShownIsCached(s)
  }

  lemma {:induction false} DropKeeps(shown: map<Name, Option<seq<Hex>>>, cache: map<Name, Entry>, name: Name)
    requires ShowsCached(shown, cache)
    ensures ShowsCached(Draw(shown, name, None), cache - {name})
  {}

  lemma {:induction false} DrawKeeps(shown: map<Name, Option<seq<Hex>>>, cache: map<Name, Entry>, name: Name)
    requires ShowsCached(shown, cache) && name in cache
    ensures ShowsCached(Draw(shown, name, Some(cache[name].bands)), cache)
  {}

  lemma {:induction false} PutKeeps(
      shown: map<Name, Option<seq<Hex>>>, cache: map<Name, Entry>, name: Name, entry: Entry)
    requires ShowsCached(shown, cache)
    ensures ShowsCached(Draw(shown, name, Some(entry.bands)), cache[name := entry])
  {}

  lemma {:induction false} ShowOneCaches(api: Api, s: State, name: Name)
    requires LoopInv(api, s)
    ensures LoopInv(api, ShowOne(s, name))
  {
    match s.selected
    case None => DropKeeps(s.shown, s.cache, name);
    case Some(hex) => if Cached(s, name, hex) { DrawKeeps(s.shown, s.cache, name); }
  }

  lemma {:induction false} ShowOneSettles(api: Api, s: State, name: Name)
    requires LoopInv(api, s) && name in s.pinned
    ensures Settled(api, ShowOne(s, name), name)
  {}

  lemma {:induction false} ShowOneLeaves(api: Api, s: State, name: Name, n: Name)
    requires Settled(api, s, n) && n != name
    ensures Settled(api, ShowOne(s, name), n)
  {}

  lemma {:induction false} ShowOneLoads(s: State, name: Name, n: Name)
    requires n == name || EmptyIsLoading(s, n)
    ensures EmptyIsLoading(ShowOne(s, name), n)
  {}

  lemma {:induction false} ShowOneKeeps(api: Api, s: State, name: Name)
    requires LoopInv(api, s) && name in s.pinned
    ensures LoopInv(api, ShowOne(s, name))
    ensures Settled(api, ShowOne(s, name), name) && EmptyIsLoading(ShowOne(s, name), name)
    ensures forall n | Settled(api, s, n) :: Settled(api, ShowOne(s, name), n)
    ensures forall n | EmptyIsLoading(s, n) :: EmptyIsLoading(ShowOne(s, name), n)
  {
    ShowOneCaches(api, s, name);
    ShowOneSettles(api, s, name);
    ShowOneLoads(s, name, name);
    forall n | EmptyIsLoading(s, n) ensures EmptyIsLoading(ShowOne(s, name), n) {
      ShowOneLoads(s, name, n);
    }
    forall n | Settled(api, s, n) ensures Settled(api, ShowOne(s, name), n) {
      if n != name { ShowOneLeaves(api, s, name, n); }
    }
  }

  lemma {:induction false} ShowAllKeeps(api: Api, s: State, names: seq<Name>)
    requires LoopInv(api, s) && forall n | n in names :: n in s.pinned
    ensures var s' := ShowAll(s, names);
            && LoopInv(api, s')
            && s' == s.(cache := s'.cache, shown := s'.shown, requests := s'.requests)
            && forall n | n in names :: Settled(api, s', n) && EmptyIsLoading(s', n)
  {
    if names != [] {
      var init, last := names[..|names| - 1], names[|names| - 1];
      ShowAllKeeps(api, s, init);
      ShowOneKeeps(api, ShowAll(s, init), last);
    }
  }

  lemma {:induction false} BeginsLoop(api: Api, s: State)
    requires CacheTrue(api, s) && ShownIsCached(s) && forall r | r in s.requests :: r.generation <= s.generation
    ensures LoopInv(api, Begun(s))
  {}

  lemma {:induction false} StaleKeeps(api: Api, s: State)
    requires CacheTrue(api, s) && ShownIsCached(s) && forall r | r in s.requests :: r.generation <= s.generation
    requires !s.open
    ensures Inv(api, s.(stale := true))
  {}

  /** Any change of selection, wheel or pins followed by showStrips. */
  lemma {:induction false} ShowStripsKeeps(api: Api, s: State)
    requires CacheTrue(api, s) && ShownIsCached(s) && forall r | r in s.requests :: r.generation <= s.generation
    ensures Inv(api, Refreshed(s))
  {
    if s.open {
      BeginsLoop(api, s);
      ShowAllKeeps(api, Begun(s), s.pinned);
    } else {
      StaleKeeps(api, s);
    }
  }

  lemma {:induction false} LandedCaches(api: Api, s: State, r: Request)
    requires LoopInv(api, s) && r in s.requests
    ensures LoopInv(api, Landed(api, s, r))
  {
    if r.generation == s.generation {
      var bands := Bands(api, r.name, r.hex, r.space);
      PutKeeps(s.shown, s.cache, r.name, Entry(r.hex, r.space, bands));
    }
  }

  lemma {:induction false} LandedSettles(api: Api, s: State, r: Request, n: Name)
    requires RequestsCurrent(s) && r in s.requests && !s.stale && Settled(api, s, n)
    ensures Settled(api, Landed(api, s, r), n)
  {}

  lemma {:induction false} LandedLoads(api: Api, s: State, r: Request, n: Name)
    requires r in s.requests && EmptyIsLoading(s, n)
    ensures EmptyIsLoading(Landed(api, s, r), n)
  {}

  lemma {:induction false} FailedLoads(s: State, r: Request, n: Name)
    requires r in s.requests && EmptyIsLoading(s, n)
    ensures EmptyIsLoading(Failed(s, r), n)
  {}

  lemma {:induction false} LandedKeeps(api: Api, s: State, r: Request)
    requires Inv(api, s) && r in s.requests
    ensures Inv(api, Landed(api, s, r))
  {
    LandedCaches(api, s, r);
    if !s.stale {
      forall n | n in s.pinned
        ensures Settled(api, Landed(api, s, r), n) && EmptyIsLoading(Landed(api, s, r), n)
      {
        LandedSettles(api, s, r, n);
        LandedLoads(api, s, r, n);
      }
    }
  }

  lemma {:induction false} FailedCaches(api: Api, s: State, r: Request)
    requires LoopInv(api, s) && r in s.requests
    ensures LoopInv(api, Failed(s, r))
  {
    DropKeeps(s.shown, s.cache, r.name);
  }

  lemma {:induction false} FailedSettles(api: Api, s: State, r: Request, n: Name)
    requires RequestsCurrent(s) && r in s.requests && !s.stale && Settled(api, s, n)
    ensures Settled(api, Failed(s, r), n)
  {}

  lemma {:induction false} FailedKeeps(api: Api, s: State, r: Request)
    requires Inv(api, s) && r in s.requests
    ensures Inv(api, Failed(s, r))
  {
    FailedCaches(api, s, r);
    if !s.stale {
      forall n | n in s.pinned ensures Settled(api, Failed(s, r), n) && EmptyIsLoading(Failed(s, r), n) {
        FailedSettles(api, s, r, n);
        FailedLoads(s, r, n);
      }
    }
  }

  /** Opening, closing and the event about it change nothing a strip depends on. */
  lemma {:induction false} FlagsKeep(api: Api, s: State, open: bool, pending: bool)
    requires Inv(api, s) && (open && s.stale ==> pending)
    ensures Inv(api, s.(open := open, togglePending := pending))
  {
    var s' := s.(open := open, togglePending := pending);
    forall n | n in s.pinned && !s.stale ensures Settled(api, s', n) && EmptyIsLoading(s', n) {
      assert Settled(api, s, n) && EmptyIsLoading(s, n);
    }
  }

  lemma {:induction false} ToggleKeeps(api: Api, s: State)
    requires Inv(api, s) && s.togglePending
    ensures Inv(api, Step(api, s, Toggle))
  {
    if s.open && s.stale {
      ShowStripsKeeps(api, s.(togglePending := false));
    } else {
      FlagsKeep(api, s, s.open, false);
    }
  }

  lemma {:induction false} StepKeepsInv(api: Api, s: State, e: Event)
    requires Inv(api, s)
    ensures Inv(api, Step(api, s, e))
  {
    match e
    case Select(hex) => ShowStripsKeeps(api, s.(selected := hex));
    case Wheel(space) => ShowStripsKeeps(api, s.(space := space));
    case Pin(names) =>
      var pinned := Filter(DERIVED, names);
      if pinned != [] { ShowStripsKeeps(api, s.(pinned := pinned, shown := Blocks(pinned))); }
    case Fold(open) => FlagsKeep(api, s, open, s.togglePending || open != s.open);
    case Toggle => if s.togglePending { ToggleKeeps(api, s); }
    case Land(r) => if r in s.requests { LandedKeeps(api, s, r); }
    case Fail(r) => if r in s.requests { FailedKeeps(api, s, r); }
  }

  lemma {:induction false} Reachable(api: Api, start: State, run: seq<Event>)
    requires Fresh(start)
    ensures Inv(api, After(api, start, run))
  {
    if run != [] {
      Reachable(api, start, run[..|run| - 1]);
      StepKeepsInv(api, After(api, start, run[..|run| - 1]), run[|run| - 1]);
    }
  }

  // ---- what the page shows ----

  /** The browser has fired its events, and no request of this generation is out or has failed. */
  ghost predicate Quiet(s: State) {
    && !s.togglePending && s.failed == {}
    && forall r | r in s.requests :: r.generation != s.generation
  }

  /**
   The bands the page promises for a name: a harmony of the wheel starts with the color itself and goes
   on with what the server answers for that wheel; a scale is what it answers without one.
   */
  predicate IsStrip(api: Api, name: Name, hex: Hex, space: Space, bands: seq<Hex>) {
    if name in {"complement", "split-complement", "triad", "analogous", "square"}
    then bands != [] && bands[0] == hex && bands[1..] == api(name, hex, Some(space))
    else bands == api(name, hex, None)
  }

  lemma {:induction false} BandsAreStrip(api: Api, name: Name, hex: Hex, space: Space, bands: seq<Hex>)
    ensures IsStrip(api, name, hex, space, bands) <==> bands == Bands(api, name, hex, space)
  {
    if bands != [] { assert bands == [bands[0]] + bands[1..]; }
    assert ([hex] + api(name, hex, Some(space)))[1..] == api(name, hex, Some(space));
  }

  /** What the last selection of a run was, and the last wheel, and whether the section was left open. */
  function SelectedAfter(start: State, run: seq<Event>): Option<Hex> {
    if run == [] then start.selected
    else
      var last := run[|run| - 1];
      if last.Select? then last.hex else SelectedAfter(start, run[..|run| - 1])
  }

  function WheelAfter(start: State, run: seq<Event>): Space {
    if run == [] then start.space
    else
      var last := run[|run| - 1];
      if last.Wheel? then last.space else WheelAfter(start, run[..|run| - 1])
  }

  function OpenAfter(start: State, run: seq<Event>): bool {
    if run == [] then start.open
    else
      var last := run[|run| - 1];
      if last.Fold? then last.open else OpenAfter(start, run[..|run| - 1])
  }

  /** The names last asked to be pinned. */
  function PinsAfter(run: seq<Event>): seq<Name> {
    if run == [] then []
    else
      var last := run[|run| - 1];
      if last.Pin? then last.names else PinsAfter(run[..|run| - 1])
  }

  lemma {:induction false} RefreshKeeps(api: Api, s: State)
    ensures Refreshed(s).selected == s.selected && Refreshed(s).space == s.space
    ensures Refreshed(s).open == s.open && Refreshed(s).pinned == s.pinned
  {
    if s.open { ShowAllChanges(Begun(s), s.pinned); }
  }

  lemma {:induction false} ShowAllChanges(s: State, names: seq<Name>)
    ensures var s' := ShowAll(s, names); s' == s.(cache := s'.cache, shown := s'.shown, requests := s'.requests)
  {
    if names != [] { ShowAllChanges(s, names[..|names| - 1]); }
  }

  /** The page is about what its user last asked for. */
  lemma {:induction false} FollowsUser(api: Api, start: State, run: seq<Event>)
    requires Fresh(start)
    ensures var s := After(api, start, run);
            && s.selected == SelectedAfter(start, run) && s.space == WheelAfter(start, run)
            && s.open == OpenAfter(start, run) && s.pinned == Filter(DERIVED, PinsAfter(run))
  {
    if run == [] {
      NoneKept(DERIVED, []);
    } else {
      var init, e := run[..|run| - 1], run[|run| - 1];
      FollowsUser(api, start, init);
      UserStep(api, After(api, start, init), e);
    }
  }

  lemma {:induction false} UserStep(api: Api, s: State, e: Event)
    ensures var s' := Step(api, s, e);
            && s'.selected == (if e.Select? then e.hex else s.selected)
            && s'.space == (if e.Wheel? then e.space else s.space)
            && s'.open == (if e.Fold? then e.open else s.open)
            && s'.pinned == if e.Pin? then Filter(DERIVED, e.names) else s.pinned
  {
    match e
    case Select(hex) => RefreshKeeps(api, s.(selected := hex));
    case Wheel(space) => RefreshKeeps(api, s.(space := space));
    case Pin(names) =>
      RefreshKeeps(api, s.(pinned := Filter(DERIVED, names), shown := Blocks(Filter(DERIVED, names))));
    case Toggle => RefreshKeeps(api, s.(togglePending := false));
    case _ =>
  }

  /** The pins are those of the seven strips that were asked for, in the order of the page. */
  lemma {:induction false} PinsInOrder(names: seq<Name>, i: nat, j: nat) returns (a: nat, b: nat)
    requires i < j < |Filter(DERIVED, names)|
    ensures a < b < 7
    ensures var page := ["complement", "split-complement", "triad", "analogous", "square", "ramp", "tones"];
            page[a] == Filter(DERIVED, names)[i] && page[b] == Filter(DERIVED, names)[j]
  {
    a, b := FilterOrder(DERIVED, names, i, j);
  }

  lemma {:induction false} FilterOrder(all: seq<Name>, names: seq<Name>, i: nat, j: nat) returns (a: nat, b: nat)
    requires i < j < |Filter(all, names)|
    ensures a < b < |all| && all[a] == Filter(all, names)[i] && all[b] == Filter(all, names)[j]
  {
    var init := all[..|all| - 1];
    if j < |Filter(init, names)| {
      a, b := FilterOrder(init, names, i, j);
    } else {
      assert Filter(init, names)[i] in Filter(init, names);
      var x: nat :| x < |init| && init[x] == Filter(init, names)[i];
      a, b := x, |all| - 1;
    }
  }

  /** After any run a cache entry is the derivation for its own name, hex and wheel. */
  lemma {:induction false} CacheIsTrue(api: Api, start: State, run: seq<Event>, name: Name)
    requires Fresh(start) && name in After(api, start, run).cache
    ensures var entry := After(api, start, run).cache[name];
            IsStrip(api, name, entry.hex, entry.space, entry.bands)
  {
    Reachable(api, start, run);
    var entry := After(api, start, run).cache[name];
    BandsAreStrip(api, name, entry.hex, entry.space, entry.bands);
  }

  /**
   After any run, once an open page is quiet, every strip pinned last shows the bands of the color last
   selected on the wheel last chosen, and is empty without a selection.
   */
  lemma {:induction false} QuietPageIsRight(api: Api, start: State, run: seq<Event>, name: Name)
    requires Fresh(start) && Quiet(After(api, start, run)) && OpenAfter(start, run)
    requires name in PinsAfter(run)
    requires name in {"complement", "split-complement", "triad", "analogous", "square", "ramp", "tones"}
    ensures var shown := After(api, start, run).shown;
            name in shown &&
            match SelectedAfter(start, run)
            case None => shown[name].None?
            case Some(hex) => shown[name].Some? && IsStrip(api, name, hex, WheelAfter(start, run), shown[name].value)
  {
    FollowsUser(api, start, run);
    Reachable(api, start, run);
    var s := After(api, start, run);
    PinnedName(run, name);
    QuietIsSettled(api, s, name);
  }

  lemma {:induction false} QuietIsSettled(api: Api, s: State, name: Name)
    requires Inv(api, s) && Quiet(s) && s.open && name in s.pinned
    ensures name in s.shown &&
            match s.selected
            case None => s.shown[name].None?
            case Some(hex) => s.shown[name].Some? && IsStrip(api, name, hex, s.space, s.shown[name].value)
  {
    assert Settled(api, s, name);
    if s.selected.Some? {
      BandsAreStrip(api, name, s.selected.value, s.space, Bands(api, name, s.selected.value, s.space));
    }
  }

  lemma {:induction false} PinnedName(run: seq<Event>, name: Name)
    requires name in {"complement", "split-complement", "triad", "analogous", "square", "ramp", "tones"}
    ensures name in Filter(DERIVED, PinsAfter(run)) <==> name in PinsAfter(run)
  {
    assert name in DERIVED by {
      assert DERIVED[0] == "complement" && DERIVED[1] == "split-complement" && DERIVED[2] == "triad";
      assert DERIVED[3] == "analogous" && DERIVED[4] == "square" && DERIVED[5] == "ramp" && DERIVED[6] == "tones";
    }
  }

  // ---- what a refresh asks the server ----

  lemma {:induction false} ShowAllAsks(s: State, names: seq<Name>, r: Request)
    ensures r in ShowAll(s, names).requests <==>
            || r in s.requests
            || (r.name in names && s.selected == Some(r.hex) && r.space == s.space && r.generation == s.generation
                && !Cached(s, r.name, r.hex))
    ensures s.selected.Some? ==> ShowAll(s, names).cache == s.cache
  {
    if names != [] {
      ShowAllChanges(s, names[..|names| - 1]);
      ShowAllAsks(s, names[..|names| - 1], r);
    }
  }

  /**
   A refresh of an open page asks the server for exactly the pinned strips that are not cached for the
   selection and wheel of the moment, once each, and nothing without a selection.
   */
  lemma {:induction false} RefreshAsks(s: State, r: Request)
    requires s.open && (forall x | x in s.requests :: x.generation <= s.generation)
    requires r.generation == s.generation + 1
    ensures r in Refreshed(s).requests <==>
            r.name in s.pinned && s.selected == Some(r.hex) && r.space == s.space && !Cached(s, r.name, r.hex)
  {
    ShowAllAsks(Begun(s), s.pinned, r);
  }

  lemma {:induction false} ShowAllShows(s: State, names: seq<Name>, name: Name, hex: Hex)
    requires s.selected == Some(hex) && Cached(s, name, hex) && name in names && name in s.shown
    ensures name in ShowAll(s, names).shown && ShowAll(s, names).shown[name] == Some(s.cache[name].bands)
  {
    var init, last := names[..|names| - 1], names[|names| - 1];
    ShowAllChanges(s, init);
    ShowAllAsks(s, init, Request(name, hex, s.space, s.generation));
    BlocksStay(s, init, name);
    if last != name { ShowAllShows(s, init, name, hex); }
  }

  lemma {:induction false} BlocksStay(s: State, names: seq<Name>, name: Name)
    ensures name in ShowAll(s, names).shown <==> name in s.shown
  {
    if names != [] { BlocksStay(s, names[..|names| - 1], name); }
  }

  /** A strip cached for the selection and wheel of the moment is shown by the refresh itself. */
  lemma {:induction false} CachedShowsAtOnce(s: State, name: Name, hex: Hex)
    requires s.open && s.selected == Some(hex) && name in s.pinned && name in s.shown && Cached(s, name, hex)
    ensures name in Refreshed(s).shown && Refreshed(s).shown[name] == Some(s.cache[name].bands)
  {
    ShowAllShows(Begun(s), s.pinned, name, hex);
  }

  /** What addStrip would add. */
  function ToAdd(s: State, name: Name): seq<Hex> {
    if name in s.cache then s.cache[name].bands else []
  }

  /** The bands on the page under a pin. */
  function OnPage(s: State, name: Name): seq<Hex> {
    if name in s.shown && s.shown[name].Some? then s.shown[name].value else []
  }

  predicate EmptyStrip(s: State, name: Name) { name in s.shown && s.shown[name].None? }

  /** The request of the current selection, wheel and generation for a strip is out. */
  predicate Loading(s: State, name: Name) {
    s.selected.Some? && Request(name, s.selected.value, s.space, s.generation) in s.requests
  }

  /**
   After any run, on an open page the browser has told of its opening, the button of a strip adds
   something else than the strip shows if and only if the strip is empty, its request is out, and
   nonempty bands are cached; and those are of another selection or another wheel.
   */
  lemma {:induction false} AddsWhatIsShown(api: Api, start: State, run: seq<Event>, name: Name)
    requires Fresh(start)
    requires var s := After(api, start, run); s.open && !s.togglePending && name in s.pinned
    ensures var s := After(api, start, run);
            ToAdd(s, name) != OnPage(s, name) <==> EmptyStrip(s, name) && Loading(s, name) && ToAdd(s, name) != []
    ensures var s := After(api, start, run);
            ToAdd(s, name) != OnPage(s, name) ==>
              && name in s.cache && s.selected.Some?
              && (s.cache[name].hex != s.selected.value || s.cache[name].space != s.space)
  {
    var s := After(api, start, run);
    Reachable(api, start, run);
    assert EmptyIsLoading(s, name) && Settled(api, s, name);
  }

  /** On a quiet open page the button adds exactly the bands of the color last selected on the wheel last chosen. */
  lemma {:induction false} QuietPageAddsRight(api: Api, start: State, run: seq<Event>, name: Name)
    requires Fresh(start) && Quiet(After(api, start, run)) && OpenAfter(start, run)
    requires name in PinsAfter(run)
    requires name in {"complement", "split-complement", "triad", "analogous", "square", "ramp", "tones"}
    ensures var s := After(api, start, run);
            match SelectedAfter(start, run)
            case None => ToAdd(s, name) == []
            case Some(hex) => IsStrip(api, name, hex, WheelAfter(start, run), ToAdd(s, name))
  {
    FollowsUser(api, start, run);
    PinnedName(run, name);
    AddsWhatIsShown(api, start, run, name);
    QuietPageIsRight(api, start, run, name);
  }

  lemma {:induction false} AfterNext(api: Api, start: State, run: seq<Event>, e: Event)
    ensures After(api, start, run + [e]) == Step(api, After(api, start, run), e)
  {
    assert (run + [e])[..|run|] == run;
  }

  /** A run of six events, one by one. */
  lemma {:induction false} AfterSix(api: Api, start: State, e: seq<Event>)
    requires |e| == 6
    ensures After(api, start, e) ==
            Step(api, Step(api, Step(api, Step(api, Step(api, Step(api, start, e[0]), e[1]), e[2]), e[3]), e[4]), e[5])
  {
    assert e[..0] == [] && After(api, start, e[..0]) == start;
    forall k | 0 <= k < 6 ensures After(api, start, e[..k + 1]) == Step(api, After(api, start, e[..k]), e[k]) {
      assert e[..k + 1] == e[..k] + [e[k]];
      AfterNext(api, start, e[..k], e[k]);
    }
    assert e[..6] == e;
  }

  /**
   That happens: pin, load, unpin, select another color and pin again, and until the request lands the
   button of the empty strip adds the bands of the color selected before.
   */
  lemma {:induction false} AddsUnseenBands(api: Api, start: State, a: Hex, b: Hex)
    requires Fresh(start) && start.open && a != b && start.generation == 0
    ensures var request := Request("ramp", a, start.space, 2);
            var run := [Pin(["ramp"]), Select(Some(a)), Land(request), Pin([]), Select(Some(b)), Pin(["ramp"])];
            var s := After(api, start, run);
            && s.open && "ramp" in s.shown && s.shown["ramp"].None?
            && ToAdd(s, "ramp") == Bands(api, "ramp", a, start.space)
  {
    var request := Request("ramp", a, start.space, 2);
    var run := [Pin(["ramp"]), Select(Some(a)), Land(request), Pin([]), Select(Some(b)), Pin(["ramp"])];
    AfterSix(api, start, run);
    assert run[0] == Pin(["ramp"]) && run[1] == Select(Some(a)) && run[2] == Land(request);
    assert run[3] == Pin([]) && run[4] == Select(Some(b)) && run[5] == Pin(["ramp"]);
    var s3 := RampLoaded(api, start, a);
    RampAgain(api, s3, b);
  }

  /** The first three events: the strip is pinned, its color selected, its bands landed. */
  lemma {:induction false} RampLoaded(api: Api, start: State, a: Hex) returns (s3: State)
    requires Fresh(start) && start.open && start.generation == 0
    ensures var s2 := Step(api, Step(api, start, Pin(["ramp"])), Select(Some(a)));
            s3 == Step(api, s2, Land(Request("ramp", a, start.space, 2)))
    ensures s3.open && "ramp" in s3.cache
    ensures s3.cache["ramp"] == Entry(a, start.space, Bands(api, "ramp", a, start.space))
  {
    var s1 := RampPinned(api, start);
    var s2 := RampRequested(api, s1, a);
    RampLands(api, s2, Request("ramp", a, start.space, 2));
    s3 := Step(api, s2, Land(Request("ramp", a, start.space, 2)));
  }

  lemma {:induction false} RampLands(api: Api, s2: State, r: Request)
    requires r in s2.requests && r.generation == s2.generation && s2.open && r.name == "ramp"
    ensures var s3 := Step(api, s2, Land(r));
            s3.open && "ramp" in s3.cache
            && s3.cache["ramp"] == Entry(r.hex, r.space, Bands(api, "ramp", r.hex, r.space))
  {}

  lemma {:induction false} RampPinned(api: Api, start: State) returns (s1: State)
    requires Fresh(start) && start.open && start.generation == 0
    ensures s1 == Step(api, start, Pin(["ramp"]))
    ensures s1.pinned == ["ramp"] && s1.generation == 1 && s1.requests == {} && s1.cache == map[]
    ensures s1.open && s1.space == start.space
  {
    PinRamp(api, start, start.(pinned := ["ramp"], shown := Blocks(["ramp"])));
    s1 := Step(api, start, Pin(["ramp"]));
  }

  lemma {:induction false} RampRequested(api: Api, s1: State, a: Hex) returns (s2: State)
    requires s1.pinned == ["ramp"] && s1.generation == 1 && s1.requests == {} && s1.cache == map[] && s1.open
    ensures s2 == Step(api, s1, Select(Some(a)))
    ensures s2.requests == {Request("ramp", a, s1.space, 2)} && s2.generation == 2 && s2.open
  {
    ShowOnlyRamp(s1.(selected := Some(a)));
    s2 := Step(api, s1, Select(Some(a)));
  }

  /** The last three: unpinned, another color selected, pinned again. */
  lemma {:induction false} RampAgain(api: Api, s3: State, b: Hex)
    requires s3.open && "ramp" in s3.cache && s3.cache["ramp"].hex != b
    ensures var s := Step(api, Step(api, Step(api, s3, Pin([])), Select(Some(b))), Pin(["ramp"]));
            s.open && "ramp" in s.shown && s.shown["ramp"].None? && ToAdd(s, "ramp") == s3.cache["ramp"].bands
  {
    OnlyRamp();
    var s4 := Step(api, s3, Pin([]));
    assert s4.pinned == [] && s4.cache == s3.cache && s4.open;
    var s5 := Step(api, s4, Select(Some(b)));
    assert s5.cache == s3.cache && s5.selected == Some(b) && s5.open;
    PinRamp(api, s5, s5.(pinned := ["ramp"], shown := Blocks(["ramp"])));
  }

  lemma {:induction false} ShowOnlyRamp(s: State)
    requires s.pinned == ["ramp"] && s.open
    ensures Refreshed(s) == ShowOne(Begun(s), "ramp")
  {
    assert ["ramp"][..0] == [];
    assert ShowAll(Begun(s), []) == Begun(s);
  }

  lemma {:induction false} PinRamp(api: Api, s: State, s1: State)
    requires s.open && s1 == s.(pinned := ["ramp"], shown := Blocks(["ramp"]))
    ensures Step(api, s, Pin(["ramp"])) == ShowOne(Begun(s1), "ramp")
  {
    PinIsRefresh(api, s, s1);
    ShowOnlyRamp(s1);
  }

  lemma {:induction false} PinIsRefresh(api: Api, s: State, s1: State)
    requires s1 == s.(pinned := ["ramp"], shown := Blocks(["ramp"]))
    ensures Step(api, s, Pin(["ramp"])) == Refreshed(s1)
  {
    OnlyRamp();
  }

  lemma {:induction false} FilterNext(all: seq<Name>, name: Name, names: seq<Name>)
    ensures Filter(all + [name], names) == Filter(all, names) + if name in names then [name] else []
  {
    assert (all + [name])[..|all|] == all;
  }

  lemma {:induction false} OnlyRamp()
    ensures Filter(DERIVED, ["ramp"]) == ["ramp"] && Filter(DERIVED, []) == []
  {
    var names := ["ramp"];
    var others := ["complement", "split-complement", "triad", "analogous", "square"];
    assert forall i | 0 <= i < 5 :: others[i] != "ramp" by {
      assert others[0][0] == 'c' && others[1][0] == 's' && others[2][0] == 't';
      assert others[3][0] == 'a' && others[4][0] == 's';
    }
    NoneKept(others, names);
    FilterNext(others, "ramp", names);
    FilterNext(others + ["ramp"], "tones", names);
    assert DERIVED == others + ["ramp"] + ["tones"];
    assert "tones"[0] == 't';
    assert names == ["ramp"];
    assert Filter(DERIVED, []) == [] by { NoneKept(DERIVED, []); }
  }

  lemma {:induction false} NoneKept(all: seq<Name>, names: seq<Name>)
    requires forall i | 0 <= i < |all| :: all[i] !in names
    ensures Filter(all, names) == []
  {
    if all != [] { NoneKept(all[..|all| - 1], names); }
  }

  // ---- the handlers as they are written ----

  /** The variables of the page; each handler is proved to be one step of the machine above. */
  class Page {
    const api: Api
    var pinned: seq<Name>
    var stripColors: map<Name, Entry>
    var stripGeneration: nat
    var stripsStale: bool
    var selectedHex: Option<Hex>
    var space: Space
    var open: bool
    var togglePending: bool
    var shown: map<Name, Option<seq<Hex>>>
    var requests: set<Request>
    ghost var failed: set<Name>

    ghost function View(): State
      reads this
    {
      State(pinned, stripColors, stripGeneration, stripsStale, selectedHex, space, open, togglePending, shown, requests,
            failed)
    }

    constructor (api: Api, space: Space, open: bool)
      ensures this.api == api && Fresh(View()) && this.open == open
    {
      this.api := api;
      pinned, stripColors, stripGeneration, stripsStale := [], map[], 0, false;
      selectedHex, this.space, this.open, togglePending := None, space, open, false;
      shown, requests, failed := map[], {}, {};
    }

    method DrawStrip(name: Name, bands: Option<seq<Hex>>)
      modifies this`shown
      ensures shown == Draw(old(shown), name, bands)
    {
      if name !in shown { return; }
      shown := shown[name := bands];
    }

    /** One round of the loop of showStrips. */
    method ShowStrip(name: Name)
      modifies this`stripColors, this`shown, this`requests
      ensures View() == ShowOne(old(View()), name)
    {
      if selectedHex.None? {
        stripColors := stripColors - {name};
        DrawStrip(name, None);
      } else if name in stripColors && stripColors[name].hex == selectedHex.value && stripColors[name].space == space {
        DrawStrip(name, Some(stripColors[name].bands));
      } else {
        requests := requests + {Request(name, selectedHex.value, space, stripGeneration)};
      }
    }

    method ShowStrips()
      modifies this
      ensures View() == Refreshed(old(View())) && pinned == old(pinned)
    {
      if !open {
        stripsStale := true;
        return;
      }
      stripsStale := false;
      stripGeneration := stripGeneration + 1;
      failed := {};
      ghost var begun := View();
      for i := 0 to |pinned|
        invariant pinned == old(pinned) && View() == ShowAll(begun, pinned[..i])
      {
        assert pinned[..i + 1][..i] == pinned[..i];
        var name := pinned[i];
        ShowStrip(name);
      }
      assert pinned[..|pinned|] == pinned;
    }

    /** The rest of loadStrip once its request has been answered. */
    method Answered(request: Request)
      requires request in requests
      modifies this
      ensures View() == Step(api, old(View()), Land(request))
    {
      requests := requests - {request};
      if request.generation != stripGeneration { return; }
      var name, hex := request.name, request.hex;
      var bands := if name in LEADING then [hex] + api(name, hex, Some(request.space)) else api(name, hex, None);
      stripColors := stripColors[name := Entry(hex, request.space, bands)];
      DrawStrip(name, Some(bands));
    }

    /** Its catch block. */
    method Rejected(request: Request)
      requires request in requests
      modifies this
      ensures View() == Step(api, old(View()), Fail(request))
    {
      requests := requests - {request};
      if request.generation != stripGeneration { return; }
      stripColors := stripColors - {request.name};
      DrawStrip(request.name, None);
      failed := failed + {request.name};
    }

    method ApplyPinned(names: seq<Name>)
      modifies this
      ensures View() == Step(api, old(View()), Pin(names)) && pinned == Filter(DERIVED, names)
    {
      pinned := Filter(DERIVED, names);
      shown := Blocks(pinned);
      if pinned == [] { return; }
      ShowStrips();
    }

    method TogglePin(name: Name)
      modifies this
      ensures forall n :: n in pinned <==> n in DERIVED && if n == name then name !in old(pinned) else n in old(pinned)
      ensures exists names :: View() == Step(api, old(View()), Pin(names))
    {
      var names := if name in pinned then Without(pinned, name) else pinned + [name];
      ApplyPinned(names);
    }

    method SelectColor(hex: Option<Hex>)
      modifies this
      ensures View() == Step(api, old(View()), Select(hex))
    {
      selectedHex := hex;
      ShowStrips();
    }

    method ChangeWheel(wheel: Space)
      modifies this
      ensures View() == Step(api, old(View()), Wheel(wheel))
    {
      space := wheel;
      ShowStrips();
    }

    /** The browser flips the section at once and fires the event later. */
    method FoldSection(opens: bool)
      modifies this
      ensures View() == Step(api, old(View()), Fold(opens))
    {
      togglePending := togglePending || opens != open;
      open := opens;
    }

    method OnToggle()
      requires togglePending
      modifies this
      ensures View() == Step(api, old(View()), Toggle)
    {
      togglePending := false;
      if open && stripsStale { ShowStrips(); }
    }
  }

  function Without(names: seq<Name>, name: Name): (r: seq<Name>)
    ensures forall n :: n in r <==> n in names && n != name
  {
    if names == [] then []
    else
      var rest := Without(names[..|names| - 1], name);
      if names[|names| - 1] == name then rest else rest + [names[|names| - 1]]
  }
}

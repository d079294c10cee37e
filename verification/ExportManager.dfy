/** The export state machine: one current profile, pinned by every unreleased I/O session. */
module ExportManager {

  datatype State =
    Disconnected | Preparing | Validating | Exporting | Connected | Active | Disconnecting | RecoveryRequired | Error

  /** A platform profile; `closes` counts the calls of its clean-up. */
  class Profile {
    const platform: string
    const readOnly: bool
    var closes: nat

    constructor (platform: string, readOnly: bool)
      ensures this.platform == platform && this.readOnly == readOnly && closes == 0
    {
      this.platform, this.readOnly, closes := platform, readOnly, 0;
    }

    /** Runs the profile's clean-up; `answer` is what it reports. */
    method Close(answer: bool) returns (ok: bool)
      modifies this
      ensures closes == old(closes) + 1 && ok == answer
    {
      closes := closes + 1;
      ok := answer;
    }
  }

  /** A session handle: the release closure with its flag, and what it was given. */
  class Session {
    const profile: Profile
    ghost const closesAtBegin: nat
    ghost const id: nat
    var released: bool

    constructor (profile: Profile, ghost id: nat)
      ensures this.profile == profile && !released && closesAtBegin == profile.closes && this.id == id
    {
      this.profile, released := profile, false;
      closesAtBegin, this.id := profile.closes, id;
    }
  }

  class Manager {
    var state: State
    var current: Profile
    var sessions: int
    /** The sessions that were begun and not yet released. */
    ghost var live: set<Session>
    /** How many sessions were ever begun. */
    ghost var begun: nat

    /** Active exactly while sessions live; each of them holds the current profile, not closed since it began. */
    ghost predicate Valid()
      reads this, current, live
    {
      && sessions == |live| && (state == Active <==> live != {})
      && state != Preparing && state != Validating && state != Disconnecting
      && forall s :: s in live ==> !s.released && s.profile == current && current.closes == s.closesAtBegin
    }

    /** A manager starts exporting its default profile. */
    constructor (profile: Profile)
      ensures Valid() && state == Exporting && current == profile && live == {} && begun == 0
    {
      state, current, sessions, live, begun := Exporting, profile, 0, {}, 0;
    }

    /** Accepts exactly a validated, immutable Wii profile as the default. */
    static method New(profile: Profile, valid: bool) returns (m: Manager?)
      ensures m != null ==> fresh(m) && m.Valid() && m.state == Exporting && m.current == profile && m.live == {}
      ensures m != null <==> profile.platform == "wii" && profile.readOnly && valid
    {
      if profile.platform != "wii" || !profile.readOnly { return null; }
      if !valid { return null; }
      m := new Manager(profile);
    }

    ghost predicate CanBegin()
      reads this
    {
      state == Exporting || state == Connected || state == Active
    }

    method BeginSession() returns (s: Session?)
      requires Valid()
      modifies this
      ensures Valid() && current == old(current)
      ensures s != null <==> old(CanBegin())
      ensures s != null ==>
        fresh(s) && !s.released && s.profile == current && state == Active && live == old(live) + {s}
      ensures s != null ==> s.id == old(begun) && begun == old(begun) + 1
      ensures s == null ==> state == old(state) && live == old(live) && begun == old(begun)
    {
      if state != Exporting && state != Connected && state != Active { return null; }
      sessions := sessions + 1;
      state := Active;
      s := new Session(current, begun);
      live, begun := live + {s}, begun + 1;
    }

    /** The first release ends the session; any further one does nothing. */
    method Release(s: Session)
      requires Valid() && (s in live <==> !s.released)
      modifies this, s
      ensures Valid() && s.released && live == old(live) - {s} && current == old(current) && begun == old(begun)
      ensures state == if old(!s.released) && live == {} then Connected else old(state)
    {
      if s.released { return; }
      s.released := true;
      sessions := sessions - 1;
      live := live - {s};
      if sessions == 0 && state == Active { state := Connected; }
    }

    method MarkConnected() returns (ok: bool)
      requires Valid()
      modifies this
      ensures Valid() && live == old(live) && current == old(current) && begun == old(begun)
      ensures ok <==> old(state) == Exporting
      ensures state == if ok then Connected else old(state)
    {
      if state != Exporting { return false; }
      state := Connected;
      ok := true;
    }

    method Disconnect() returns (ok: bool)
      requires Valid()
      modifies this
      ensures Valid() && live == old(live) && current == old(current) && begun == old(begun)
      ensures ok <==> live == {} && old(state) in {Exporting, Connected, Disconnected}
      ensures state == if ok then Disconnected else old(state)
    {
      if sessions != 0 { return false; }
      match state {
        case Exporting | Connected =>
          state := Disconnecting;
          state := Disconnected;
          ok := true;
        case Disconnected => ok := true;
        case _ => ok := false;
      }
    }

    /**
     * Replaces the profile of a disconnected export; only then is the previous profile closed.
     * `valid` is what validating the new profile reports, `closes` what closing the old one does.
     */
    method Select(next: Profile?, valid: bool, closes: bool) returns (ok: bool)
      requires Valid()
      modifies this, current
      ensures Valid() && live == old(live) && begun == old(begun)
      ensures ok <==> old(state) == Disconnected && next != null && valid && (next == old(current) || closes)
      ensures state == if old(state) != Disconnected || next == null then old(state)
                       else if !valid then Error
                       else if ok then Exporting else RecoveryRequired
      ensures current == if old(state) == Disconnected && next != null && valid then next else old(current)
      ensures old(current).closes == old(current.closes) + if current != old(current) then 1 else 0
    {
      if state != Disconnected || sessions != 0 { return false; }
      if next == null { return false; }
      state := Preparing;
      state := Validating;
      if !valid {
        state := Error;
        return false;
      }
      var previous := current;
      current := next;
      state := Exporting;
      if previous != next {
        var closed := previous.Close(closes);
        if !closed {
          state := RecoveryRequired;
          return false;
        }
      }
      ok := true;
    }

    method Recover() returns (ok: bool)
      requires Valid()
      modifies this
      ensures Valid() && live == old(live) && current == old(current) && begun == old(begun)
      ensures ok <==> old(state) == Error || old(state) == RecoveryRequired
      ensures state == if ok then Disconnected else old(state)
    {
      if state != Error && state != RecoveryRequired { return false; }
      if sessions != 0 { return false; }
      state := Disconnected;
      ok := true;
    }
  }

  // ---- Runs ----

  /** What callers do, in any order: releases name a handle given out earlier, possibly again. */
  datatype Action =
    Begin | Release(handle: nat) | Mark | Leave | Choose(profile: Profile, valid: bool, closes: bool) | Repair

  /** What a call told its caller: a new handle, a release of one, or whether anything else was done. */
  datatype Event = Began(handle: nat) | Ended(handle: nat) | Did(ok: bool)

  function Apply(before: set<nat>, e: Event): set<nat> {
    match e
    case Began(h) => before + {h}
    case Ended(h) => before - {h}
    case Did(_) => before
  }

  /** The handles that were given out and not yet released. */
  function Unreleased(events: seq<Event>): set<nat> {
    if events == [] then {} else Apply(Unreleased(events[..|events| - 1]), events[|events| - 1])
  }

  /** How many handles were given out. */
  function Given(events: seq<Event>): nat {
    if events == [] then 0
    else Given(events[..|events| - 1]) + if events[|events| - 1].Began? then 1 else 0
  }

  /** What an observer sees between two calls; `closes` counts the clean-ups of every profile. */
  datatype View = View(state: State, current: Profile, closes: map<Profile, nat>)

  ghost function ViewOf(m: Manager, profiles: set<Profile>): View
    reads m, profiles
  {
    View(m.state, m.current, map p | p in profiles :: p.closes)
  }

  /** The export state machine without the manager: what a call makes of a view while `open` are unreleased. */
  function Next(v: View, open: set<nat>, a: Action): View {
    match a
    case Begin => if Begins(v.state) then v.(state := Active) else v
    case Release(h) => if open == {h} then v.(state := Connected) else v
    case Mark => if v.state == Exporting then v.(state := Connected) else v
    case Leave => if Leaves(v.state, open) then v.(state := Disconnected) else v
    case Choose(profile, valid, closes) =>
      if v.state != Disconnected then v
      else if !valid then v.(state := Error)
      else if profile == v.current then v.(state := Exporting)
      else View(if closes then Exporting else RecoveryRequired, profile,
        if v.current in v.closes then v.closes[v.current := v.closes[v.current] + 1] else v.closes)
    case Repair => if v.state == Error || v.state == RecoveryRequired then v.(state := Disconnected) else v
  }

  predicate Begins(state: State) { state == Exporting || state == Connected || state == Active }

  predicate Leaves(state: State, open: set<nat>) {
    open == {} && (state == Exporting || state == Connected || state == Disconnected)
  }

  /** What the call tells, when `given` handles were given out before. */
  function Told(v: View, open: set<nat>, given: nat, a: Action): Event {
    match a
    case Begin => if Begins(v.state) then Began(given) else Did(false)
    case Release(h) => if h < given then Ended(h) else Did(false)
    case Mark => Did(v.state == Exporting)
    case Leave => Did(Leaves(v.state, open))
    case Choose(profile, valid, closes) => Did(v.state == Disconnected && valid && (profile == v.current || closes))
    case Repair => Did(v.state == Error || v.state == RecoveryRequired)
  }

  /** The views and events are those of the state machine under these actions. */
  ghost predicate Follows(views: seq<View>, events: seq<Event>, actions: seq<Action>) {
    && |views| == |events| + 1 && |events| <= |actions|
    && forall k :: 0 <= k < |events| ==> Stepped(views, events, actions, k)
  }

  ghost predicate Stepped(views: seq<View>, events: seq<Event>, actions: seq<Action>, k: nat)
    requires k < |events| < |views| && |events| <= |actions|
  {
    var open := Unreleased(events[..k]);
    && events[k] == Told(views[k], open, Given(events[..k]), actions[k])
    && views[k + 1] == Next(views[k], open, actions[k])
  }

  /** Active exactly while a handle is unreleased, whose profile is then current and has not been closed since. */
  ghost predicate Pinned(view: View, events: seq<Event>, handles: seq<Session>) {
    && (view.state == Active <==> Unreleased(events) != {})
    && forall h :: h in Unreleased(events) ==> h < |handles| && HeldBy(view, handles[h])
  }

  ghost predicate HeldBy(view: View, s: Session) {
    s.profile == view.current && view.current in view.closes && s.closesAtBegin == view.closes[view.current]
  }

  /** The manager's live sessions are the unreleased handles. */
  ghost predicate Agrees(m: Manager, events: seq<Event>, handles: seq<Session>)
    reads m, handles
  {
    && m.begun == |handles| == Given(events)
    && (forall h :: h in Unreleased(events) ==> h < |handles|)
    && (forall h :: 0 <= h < |handles| ==> IsHandle(m, events, handles[h], h))
    && (forall s :: s in m.live ==> s.id < |handles| && handles[s.id] == s)
  }

  ghost predicate IsHandle(m: Manager, events: seq<Event>, s: Session, h: nat)
    reads m, s
  {
    s.id == h && (s in m.live <==> h in Unreleased(events)) && (s.released <==> h !in Unreleased(events))
  }

  lemma OneMoreEvent(events: seq<Event>, e: Event)
    ensures Unreleased(events + [e]) == Apply(Unreleased(events), e)
    ensures Given(events + [e]) == Given(events) + if e.Began? then 1 else 0
  {
    assert (events + [e])[..|events|] == events;
  }

  lemma LiveIsUnreleased(m: Manager, events: seq<Event>, handles: seq<Session>)
    requires Agrees(m, events, handles)
    ensures m.live == {} <==> Unreleased(events) == {}
  {
    if s :| s in m.live {
      assert IsHandle(m, events, handles[s.id], s.id);
    }
    if h :| h in Unreleased(events) {
      assert IsHandle(m, events, handles[h], h);
    }
  }

  lemma SeesPinned(m: Manager, profiles: set<Profile>, events: seq<Event>, handles: seq<Session>)
    requires m.Valid() && Agrees(m, events, handles) && m.current in profiles
    ensures Pinned(ViewOf(m, profiles), events, handles)
  {
    LiveIsUnreleased(m, events, handles);
    forall h | h in Unreleased(events) ensures h < |handles| && HeldBy(ViewOf(m, profiles), handles[h]) {
      assert IsHandle(m, events, handles[h], h);
    }
  }

  method PerformBegin(m: Manager, handles: seq<Session>, ghost events: seq<Event>, ghost profiles: set<Profile>)
    returns (more: seq<Session>, event: Event)
    requires m.Valid() && Agrees(m, events, handles)
    modifies m
    ensures m.Valid() && handles <= more && Agrees(m, events + [event], more)
    ensures ViewOf(m, profiles) == Next(old(ViewOf(m, profiles)), Unreleased(events), Begin)
    ensures event == Told(old(ViewOf(m, profiles)), Unreleased(events), |handles|, Begin)
    ensures forall h :: |handles| <= h < |more| ==> fresh(more[h])
  {
    var s := m.BeginSession();
    if s == null {
      OneMoreEvent(events, Did(false));
      return handles, Did(false);
    }
    more, event := handles + [s], Began(|handles|);
    OneMoreEvent(events, event);
    forall h | 0 <= h < |handles| ensures IsHandle(m, events + [event], more[h], h) {
      assert more[h] == handles[h];
    }
  }

  /** Releasing a handle, for the first time or again. */
  method PerformRelease(m: Manager, h: nat, handles: seq<Session>, ghost events: seq<Event>,
                        ghost profiles: set<Profile>) returns (event: Event)
    requires m.Valid() && Agrees(m, events, handles)
    modifies m, if h < |handles| then {handles[h]} else {}
    ensures m.Valid() && Agrees(m, events + [event], handles)
    ensures ViewOf(m, profiles) == Next(old(ViewOf(m, profiles)), Unreleased(events), Release(h))
    ensures event == Told(old(ViewOf(m, profiles)), Unreleased(events), |handles|, Release(h))
  {
    OneMoreEvent(events, Did(false));
    if h >= |handles| { return Did(false); }
    event := Ended(h);
    ReleaseHandle(m, h, handles, events);
    OneMoreEvent(events, event);
    LastOne(Unreleased(events), h);
  }

  /** The release itself: the handle leaves the unreleased ones, and the last one to leave disconnects. */
  method ReleaseHandle(m: Manager, h: nat, handles: seq<Session>, ghost events: seq<Event>)
    requires m.Valid() && Agrees(m, events, handles) && h < |handles|
    modifies m, handles[h]
    ensures m.Valid() && Agrees(m, events + [Ended(h)], handles) && m.current == old(m.current)
    ensures m.state ==
      if h in Unreleased(events) && Unreleased(events) - {h} == {} then Connected else old(m.state)
  {
    assert IsHandle(m, events, handles[h], h);
    OneMoreEvent(events, Ended(h));
    ghost var now := events + [Ended(h)];
    m.Release(handles[h]);
    forall k | 0 <= k < |handles| ensures IsHandle(m, now, handles[k], k) {
      assert old(IsHandle(m, events, handles[k], k)) && (handles[k] == handles[h] ==> k == h);
    }
    LiveIsUnreleased(m, events + [Ended(h)], handles);
  }

  lemma LastOne(open: set<nat>, h: nat)
    ensures h in open && open - {h} == {} <==> open == {h}
  {
    if h in open && open - {h} == {} {
      assert open == (open - {h}) + {h};
    }
  }

  /** The actions that neither begin nor end a session. */
  method PerformOther(m: Manager, action: Action, handles: seq<Session>, ghost events: seq<Event>,
                      ghost profiles: set<Profile>) returns (event: Event)
    requires m.Valid() && Agrees(m, events, handles) && !action.Begin? && !action.Release?
    modifies m, m.current
    ensures m.Valid() && Agrees(m, events + [event], handles)
    ensures ViewOf(m, profiles) == Next(old(ViewOf(m, profiles)), Unreleased(events), action)
    ensures event == Told(old(ViewOf(m, profiles)), Unreleased(events), |handles|, action)
  {
    LiveIsUnreleased(m, events, handles);
    var ok;
    match action {
      case Mark => ok := m.MarkConnected();
      case Leave => ok := m.Disconnect();
      case Choose(profile, valid, closes) => ok := m.Select(profile, valid, closes);
      case Repair => ok := m.Recover();
    }
    event := Did(ok);
    OneMoreEvent(events, event);
  }

  /** The handle that an action may release. */
  ghost function Ending(action: Action, handles: seq<Session>): set<Session> {
    if action.Release? && action.handle < |handles| then {handles[action.handle]} else {}
  }

  /** Performs one action on a manager, as the state machine demands. */
  method Perform(m: Manager, action: Action, handles: seq<Session>, ghost events: seq<Event>,
                 ghost profiles: set<Profile>) returns (more: seq<Session>, event: Event)
    requires m.Valid() && Agrees(m, events, handles)
    modifies m, m.current, Ending(action, handles)
    ensures m.Valid() && handles <= more && Agrees(m, events + [event], more)
    ensures ViewOf(m, profiles) == Next(old(ViewOf(m, profiles)), Unreleased(events), action)
    ensures event == Told(old(ViewOf(m, profiles)), Unreleased(events), |handles|, action)
    ensures forall h :: |handles| <= h < |more| ==> fresh(more[h])
  {
    if action.Begin? {
      more, event := PerformBegin(m, handles, events, profiles);
    } else if action.Release? {
      more := handles;
      event := PerformRelease(m, action.handle, handles, events, profiles);
    } else {
      more := handles;
      event := PerformOther(m, action, handles, events, profiles);
    }
  }

  /** Every profile that the actions select is one of these. */
  ghost predicate ChoosesFrom(actions: seq<Action>, profiles: set<Profile>) {
    forall k :: 0 <= k < |actions| ==> actions[k].Choose? ==> actions[k].profile in profiles
  }

  /** Every view of a run is pinned by the events before it. */
  ghost predicate AllPinned(views: seq<View>, events: seq<Event>, handles: seq<Session>) {
    |views| == |events| + 1 && forall k :: 0 <= k < |views| ==> Pinned(views[k], events[..k], handles)
  }

  lemma PinnedWithMore(view: View, events: seq<Event>, handles: seq<Session>, more: seq<Session>)
    requires Pinned(view, events, handles) && handles <= more
    ensures Pinned(view, events, more)
  {
  }

  lemma AllPinnedGrows(views: seq<View>, events: seq<Event>, handles: seq<Session>, more: seq<Session>,
                       view: View, e: Event)
    requires AllPinned(views, events, handles) && handles <= more && Pinned(view, events + [e], more)
    ensures AllPinned(views + [view], events + [e], more)
  {
    var later, longer := views + [view], events + [e];
    forall k | 0 <= k < |later| ensures Pinned(later[k], longer[..k], more) {
      if k < |views| {
        assert longer[..k] == events[..k];
        PinnedWithMore(views[k], events[..k], handles, more);
      } else {
        assert longer[..k] == longer;
      }
    }
  }

  lemma FollowsGrows(views: seq<View>, events: seq<Event>, actions: seq<Action>, view: View, e: Event)
    requires Follows(views, events, actions) && |events| < |actions|
    requires e == Told(views[|events|], Unreleased(events), Given(events), actions[|events|])
    requires view == Next(views[|events|], Unreleased(events), actions[|events|])
    ensures Follows(views + [view], events + [e], actions)
  {
    var later, longer := views + [view], events + [e];
    forall k | 0 <= k < |longer| ensures Stepped(later, longer, actions, k) {
      assert longer[..k] == events[..k];
      if k < |events| {
        assert Stepped(views, events, actions, k);
      } else {
        assert events[..k] == events;
      }
    }
  }

  /** A step leaves the current profile among the known ones. */
  lemma StaysAmong(v: View, open: set<nat>, a: Action, profiles: set<Profile>)
    requires v.current in profiles && (a.Choose? ==> a.profile in profiles)
    ensures Next(v, open, a).current in profiles
  {
  }

  /**
   * Any interleaving of calls is a run of the state machine, from the manager's view at the start to
   * its view at the end, and every view in between is pinned: the export is active exactly while a
   * handle is unreleased, and the profile of such a handle is current and has not been closed since.
   */
  method Run(m: Manager, actions: seq<Action>, ghost profiles: set<Profile>)
    returns (ghost views: seq<View>, events: seq<Event>, handles: seq<Session>)
    requires m.Valid() && m.live == {} && m.begun == 0 && ChoosesFrom(actions, profiles) && m.current in profiles
    modifies m, profiles
    ensures m.Valid() && |events| == |actions| && |handles| == Given(events)
    ensures Follows(views, events, actions)
    ensures views[0] == old(ViewOf(m, profiles)) && views[|actions|] == ViewOf(m, profiles)
    ensures AllPinned(views, events, handles)
  {
    handles, events := [], [];
    SeesPinned(m, profiles, events, handles);
    views := [ViewOf(m, profiles)];
    while |events| < |actions|
      invariant |events| <= |actions| && m.Valid() && Agrees(m, events, handles)
      invariant m.current in profiles
      invariant forall h :: 0 <= h < |handles| ==> fresh(handles[h])
      invariant Follows(views, events, actions) && AllPinned(views, events, handles)
      invariant views[0] == old(ViewOf(m, profiles)) && views[|events|] == ViewOf(m, profiles)
      decreases |actions| - |events|
    {
      var action := actions[|events|];
      StaysAmong(ViewOf(m, profiles), Unreleased(events), action, profiles);
      var more, event := Perform(m, action, handles, events, profiles);
      SeesPinned(m, profiles, events + [event], more);
      FollowsGrows(views, events, actions, ViewOf(m, profiles), event);
      AllPinnedGrows(views, events, handles, more, ViewOf(m, profiles), event);
      views, events, handles := views + [ViewOf(m, profiles)], events + [event], more;
    }
  }
}

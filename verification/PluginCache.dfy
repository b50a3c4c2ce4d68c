/** The plugin cache as an atomic-step system: any number of requests and path additions, one step
    for each critical section, each wait and each unlocked action of the owner of a load. */
module PluginCache {
  import opened Bytes

  datatype Entry = Entry(creator: nat, file: string)

  /** The outcome of a load, shared by all requests on it. */
  datatype Outcome = Loaded(entry: Entry) | Failed(locations: seq<string>) | Broken

  datatype Phase =
    | Start                                        // about to look the name up
    | Locking                                      // about to take the mutex
    | Sharing(load: nat)                           // waits for a result to deliver
    | Waiting(load: nat)                           // waits for a load to end, then starts again
    | Searching                                    // owner, no lock held
    | Opening(file: string, identity: string)
    | Linking(file: string, handle: nat)
    | Finishing(outcome: Outcome)                  // about to take the mutex with the outcome
    | Publishing(outcome: Outcome)                 // about to set the promise
    | Returned(outcome: Outcome)

  /** A call of Get. `begun` is the number of paths added before it, `waits` how often it waited for a
      load with other settings, `seen` the settings' version when it last did. */
  datatype Request = Request(name: string, org: string, library: string, phase: Phase, load: nat,
                             begun: nat, waits: nat, seen: nat)

  /** A load: the settings it started with, who does the work, and the promise. */
  datatype Flight = Flight(name: string, version: nat, locations: seq<string>, owner: nat, result: Option<Outcome>)

  datatype State = State(paths: seq<string>, version: nat, entries: map<string, Entry>, inFlight: map<string, nat>,
                         libraries: map<string, nat>, opens: seq<string>, flights: seq<Flight>, requests: seq<Request>)

  /** What a request can do next; the file system, the loader and the symbol table answer as they like. */
  datatype Action =
    | Lookup | Enter | Share | Wake
    | SearchMiss | SearchHit(at: nat, identity: string)
    | OpenKnown | OpenNew(handle: nat) | OpenFail
    | LinkHit(creator: nat) | LinkFail
    | Break                                        // any other exception inside Load
    | Finish | Publish

  datatype Step = Arrive(name: string, org: string, library: string) | PathAdd(path: string) | Act(r: nat, action: Action)

  function DevelopmentLocations(org: string, library: string): seq<string> {
    var suffix := "/src/.libs";
    ["../../" + library + suffix] + (if org != "" then ["../node_modules/" + org + "/" + library + suffix] else [])
  }

  /** The configured paths, then the development locations. */
  function SearchListBuild(configured: seq<string>, org: string, library: string): seq<string> {
    configured + DevelopmentLocations(org, library)
  }

  const INIT := State([], 0, map[], map[], map[], [], [], [])

  function Moved(s: State, r: nat, phase: Phase): State
    requires r < |s.requests|
  {
    s.(requests := s.requests[r := s.requests[r].(phase := phase)])
  }

  function FailedOf(s: State, r: nat): Outcome {
    if r < |s.requests| && s.requests[r].load < |s.flights| then Failed(s.flights[s.requests[r].load].locations) else Broken
  }

  /** The steps a request takes inside Load, with or without an exception. */
  predicate InLoad(p: Phase) {
    p.Searching? || p.Opening? || p.Linking?
  }

  predicate Published(s: State, load: nat) {
    load < |s.flights| && s.flights[load].result.Some?
  }

  predicate CanAct(s: State, q: Request, action: Action) {
    match action
    case Lookup => q.phase.Start?
    case Enter => q.phase.Locking? && (q.name in s.inFlight ==> s.inFlight[q.name] < |s.flights|)
    case Share => q.phase.Sharing? && Published(s, q.phase.load)
    case Wake => q.phase.Waiting? && Published(s, q.phase.load)
    case SearchMiss => q.phase.Searching?
    case SearchHit(at, _) => q.phase.Searching? && q.load < |s.flights| && at < |s.flights[q.load].locations|
    case OpenKnown => q.phase.Opening? && q.phase.identity in s.libraries
    case OpenNew(_) => q.phase.Opening? && q.phase.identity !in s.libraries
    case OpenFail => q.phase.Opening? && q.phase.identity !in s.libraries
    case LinkHit(_) => q.phase.Linking?
    case LinkFail => q.phase.Linking?
    case Break => InLoad(q.phase)
    case Finish => q.phase.Finishing?
    case Publish => q.phase.Publishing? && q.load < |s.flights|
  }

  predicate Enabled(s: State, step: Step) {
    step.Act? ==> step.r < |s.requests| && CanAct(s, s.requests[step.r], step.action)
  }

  /** What a request does under the mutex when the name is not an entry yet. */
  function Entered(s: State, r: nat): State
    requires r < |s.requests| && (s.requests[r].name in s.inFlight ==> s.inFlight[s.requests[r].name] < |s.flights|)
  {
    var q := s.requests[r];
    if q.name in s.entries then Moved(s, r, Returned(Loaded(s.entries[q.name])))
    else if q.name in s.inFlight then
      var load := s.inFlight[q.name];
      if s.flights[load].version == s.version then Moved(s, r, Sharing(load))
      else s.(requests := s.requests[r := q.(phase := Waiting(load), waits := q.waits + 1, seen := s.version)])
    else
      var load := |s.flights|;
      s.(flights := s.flights + [Flight(q.name, s.version, SearchListBuild(s.paths, q.org, q.library), r, None)],
         inFlight := s.inFlight[q.name := load],
         requests := s.requests[r := q.(phase := Searching, load := load)])
  }

  function Do(s: State, step: Step): State
    requires Enabled(s, step)
  {
    match step
    case Arrive(name, org, library) =>
      s.(requests := s.requests + [Request(name, org, library, Start, 0, |s.paths|, 0, |s.paths|)])
    case PathAdd(path) => s.(paths := s.paths + [path], version := s.version + 1)
    case Act(r, action) => Acted(s, r, action)
  }

  function Acted(s: State, r: nat, action: Action): State
    requires r < |s.requests| && CanAct(s, s.requests[r], action)
  {
    var q := s.requests[r];
    match action
    case Lookup => if q.name in s.entries then Moved(s, r, Returned(Loaded(s.entries[q.name]))) else Moved(s, r, Locking)
    case Enter => Entered(s, r)
    case Share => Moved(s, r, Returned(s.flights[q.phase.load].result.value))
    case Wake => Moved(s, r, Start)
    case SearchMiss => Moved(s, r, Finishing(FailedOf(s, r)))
    case SearchHit(at, identity) => Moved(s, r, Opening(s.flights[q.load].locations[at], identity))
    case OpenKnown => Moved(s, r, Linking(q.phase.file, s.libraries[q.phase.identity]))
    case OpenNew(handle) =>
      Moved(s, r, Linking(q.phase.file, handle)).(libraries := s.libraries[q.phase.identity := handle], opens := s.opens + [q.phase.identity])
    case OpenFail => Moved(s, r, Finishing(FailedOf(s, r)))
    case LinkHit(creator) => Moved(s, r, Finishing(Loaded(Entry(creator, q.phase.file))))
    case LinkFail => Moved(s, r, Finishing(FailedOf(s, r)))
    case Break => Moved(s, r, Finishing(Broken))
    case Finish =>
      var o := q.phase.outcome;
      Moved(s, r, Publishing(o)).(entries := if o.Loaded? then s.entries[q.name := o.entry] else s.entries,
                                  inFlight := s.inFlight - {q.name})
    case Publish =>
      Moved(s, r, Returned(q.phase.outcome)).(flights := s.flights[q.load := s.flights[q.load].(result := Some(q.phase.outcome))])
  }

  // ── Invariant ──────────────────────────────────────────────

  /** The request does the work of a load that is in flight. */
  predicate Owning(p: Phase) {
    InLoad(p) || p.Finishing?
  }

  /** An outcome of a load with these locations: a failure lists exactly them. */
  predicate Computed(o: Outcome, locations: seq<string>) {
    o.Failed? ==> o.locations == locations
  }

  /** A success is the name's entry. */
  predicate Recorded(s: State, name: string, o: Outcome) {
    o.Loaded? ==> name in s.entries && s.entries[name] == o.entry
  }

  ghost predicate NameOk(s: State, name: string)
    requires name in s.inFlight
  {
    var load := s.inFlight[name];
    && load < |s.flights| && s.flights[load].name == name && name !in s.entries
    && s.flights[load].owner < |s.requests| && Owning(s.requests[s.flights[load].owner].phase)
  }

  ghost predicate FlightOk(s: State, load: nat)
    requires load < |s.flights|
  {
    var f := s.flights[load];
    && f.version <= |s.paths| && s.paths[..f.version] <= f.locations
    && f.owner < |s.requests|
    && (var q := s.requests[f.owner];
        && q.load == load && q.name == f.name && q.begun <= f.version
        && (f.result.None? ==> Owning(q.phase) || q.phase.Publishing?)
        && (f.result.Some? ==> q.phase.Returned?
                               && Computed(f.result.value, f.locations) && Recorded(s, f.name, f.result.value)))
  }

  /** The load a request works on is its own. */
  ghost predicate OwnLoad(s: State, r: nat)
    requires r < |s.requests|
  {
    var q := s.requests[r];
    q.load < |s.flights| && s.flights[q.load].owner == r && s.flights[q.load].name == q.name && s.flights[q.load].result.None?
  }

  ghost predicate PhaseOk(s: State, r: nat)
    requires r < |s.requests|
  {
    var q := s.requests[r];
    match q.phase
    case Start => true
    case Locking => true
    case Sharing(load) => load < |s.flights| && s.flights[load].name == q.name && q.begun <= s.flights[load].version
    case Waiting(load) => load < |s.flights| && s.flights[load].name == q.name
    case Publishing(o) =>
      && OwnLoad(s, r) && Computed(o, s.flights[q.load].locations) && Recorded(s, q.name, o)
      && (q.name in s.inFlight ==> s.inFlight[q.name] != q.load)
    case Returned(o) => Recorded(s, q.name, o) && (o.Failed? ==> q.begun <= |s.paths| && s.paths[..q.begun] <= o.locations)
    case _ =>
      && OwnLoad(s, r) && q.name in s.inFlight && s.inFlight[q.name] == q.load
      && (q.phase.Finishing? ==> Computed(q.phase.outcome, s.flights[q.load].locations))
  }

  /** A request that waited before finds only loads started since. */
  ghost predicate Fresher(s: State, r: nat)
    requires r < |s.requests|
  {
    var q := s.requests[r];
    (q.waits > 0 && q.name in s.inFlight && (q.phase.Start? || q.phase.Locking? || (q.phase.Waiting? && s.inFlight[q.name] != q.phase.load)))
    ==> s.inFlight[q.name] < |s.flights| && q.seen <= s.flights[s.inFlight[q.name]].version
  }

  ghost predicate WaitsOk(s: State, r: nat)
    requires r < |s.requests|
  {
    var q := s.requests[r];
    q.begun <= q.seen <= |s.paths| && (q.waits > 0 ==> q.waits <= 1 + q.seen - q.begun)
  }

  ghost predicate RequestOk(s: State, r: nat)
    requires r < |s.requests|
  {
    PhaseOk(s, r) && Fresher(s, r) && WaitsOk(s, r)
  }

  ghost predicate LibrariesOk(s: State) {
    && (forall id :: id in s.opens <==> id in s.libraries)
    && (forall i, j :: 0 <= i < j < |s.opens| ==> s.opens[i] != s.opens[j])
  }

  ghost predicate Inv(s: State) {
    && s.version == |s.paths|
    && (forall name :: name in s.inFlight ==> NameOk(s, name))
    && (forall load :: 0 <= load < |s.flights| ==> FlightOk(s, load))
    && (forall r :: 0 <= r < |s.requests| ==> RequestOk(s, r))
    && LibrariesOk(s)
  }

  lemma {:induction false} MoveKeeps(s: State, r: nat, phase: Phase)
    requires Inv(s) && r < |s.requests|
    requires !s.requests[r].phase.Publishing? && !s.requests[r].phase.Finishing? && !s.requests[r].phase.Returned?
    requires Owning(s.requests[r].phase) ==> Owning(phase)
    requires PhaseOk(Moved(s, r, phase), r) && Fresher(Moved(s, r, phase), r)
    ensures Inv(Moved(s, r, phase))
  {
    var t := Moved(s, r, phase);
    forall name | name in t.inFlight ensures NameOk(t, name) {
      assert NameOk(s, name);
    }
    forall load | 0 <= load < |t.flights| ensures FlightOk(t, load) {
      assert FlightOk(s, load);
    }
    forall k | 0 <= k < |t.requests| ensures RequestOk(t, k) {
      assert RequestOk(s, k);
    }
  }

  lemma {:induction false} ArriveKeeps(s: State, name: string, org: string, library: string)
    requires Inv(s)
    ensures Inv(Do(s, Arrive(name, org, library)))
  {
    var t := Do(s, Arrive(name, org, library));
    forall n | n in t.inFlight ensures NameOk(t, n) { assert NameOk(s, n); }
    forall load | 0 <= load < |t.flights| ensures FlightOk(t, load) { assert FlightOk(s, load); }
    forall k | 0 <= k < |t.requests| ensures RequestOk(t, k) {
      if k < |s.requests| { assert RequestOk(s, k); }
    }
  }

  lemma {:induction false} PathAddKeeps(s: State, path: string)
    requires Inv(s)
    ensures Inv(Do(s, PathAdd(path)))
  {
    var t := Do(s, PathAdd(path));
    forall n | n in t.inFlight ensures NameOk(t, n) { assert NameOk(s, n); }
    forall load | 0 <= load < |t.flights| ensures FlightOk(t, load) {
      assert FlightOk(s, load);
      assert t.paths[..t.flights[load].version] == s.paths[..s.flights[load].version];
    }
    forall k | 0 <= k < |t.requests| ensures RequestOk(t, k) {
      assert RequestOk(s, k);
      if t.requests[k].begun <= |s.paths| { assert t.paths[..t.requests[k].begun] == s.paths[..t.requests[k].begun]; }
    }
  }

  /** Waiting for a load that started with other settings. */
  lemma {:induction false} WaitKeeps(s: State, r: nat)
    requires Inv(s) && r < |s.requests| && s.requests[r].phase.Locking?
    requires var q := s.requests[r];
      q.name !in s.entries && q.name in s.inFlight && s.inFlight[q.name] < |s.flights| && s.flights[s.inFlight[q.name]].version != s.version
    ensures Inv(Entered(s, r))
  {
    var t := Entered(s, r);
    assert NameOk(s, s.requests[r].name) && FlightOk(s, s.inFlight[s.requests[r].name]);
    forall n | n in t.inFlight ensures NameOk(t, n) { assert NameOk(s, n); }
    forall load | 0 <= load < |t.flights| ensures FlightOk(t, load) { assert FlightOk(s, load); }
    forall k | 0 <= k < |t.requests| ensures RequestOk(t, k) { assert RequestOk(s, k); }
  }

  /** Starting a load. */
  lemma {:induction false} StartKeeps(s: State, r: nat)
    requires Inv(s) && r < |s.requests| && s.requests[r].phase.Locking?
    requires s.requests[r].name !in s.entries && s.requests[r].name !in s.inFlight
    ensures Inv(Entered(s, r))
  {
    var t := Entered(s, r);
    forall n | n in t.inFlight ensures NameOk(t, n) {
      if n in s.inFlight { assert NameOk(s, n); }
    }
    forall load | 0 <= load < |t.flights| ensures FlightOk(t, load) {
      if load < |s.flights| { assert FlightOk(s, load); }
      assert s.paths[..s.version] == s.paths;
      assert RequestOk(s, r);
    }
    forall k | 0 <= k < |t.requests| ensures RequestOk(t, k) { assert RequestOk(s, k); }
  }

  lemma {:induction false} EnterKeeps(s: State, r: nat)
    requires Inv(s) && r < |s.requests| && CanAct(s, s.requests[r], Enter)
    ensures Inv(Entered(s, r))
  {
    var q := s.requests[r];
    assert RequestOk(s, r);
    if q.name in s.entries {
      MoveKeeps(s, r, Returned(Loaded(s.entries[q.name])));
    } else if q.name in s.inFlight {
      assert NameOk(s, q.name) && FlightOk(s, s.inFlight[q.name]);
      if s.flights[s.inFlight[q.name]].version == s.version { MoveKeeps(s, r, Sharing(s.inFlight[q.name])); }
      else { WaitKeeps(s, r); }
    } else {
      StartKeeps(s, r);
    }
  }

  /** Delivering the result of a shared load. */
  lemma {:induction false} ShareKeeps(s: State, r: nat)
    requires Inv(s) && r < |s.requests| && CanAct(s, s.requests[r], Share)
    ensures Inv(Acted(s, r, Share))
  {
    var q := s.requests[r];
    assert RequestOk(s, r) && FlightOk(s, q.phase.load);
    var f := s.flights[q.phase.load];
    if f.result.value.Failed? {
      assert s.paths[..q.begun] == s.paths[..f.version][..q.begun];
    }
    MoveKeeps(s, r, Returned(f.result.value));
  }

  lemma {:induction false} WakeKeeps(s: State, r: nat)
    requires Inv(s) && r < |s.requests| && CanAct(s, s.requests[r], Wake)
    ensures Inv(Acted(s, r, Wake))
  {
    var q := s.requests[r];
    assert RequestOk(s, r) && FlightOk(s, q.phase.load);
    if q.name in s.inFlight { assert NameOk(s, q.name) && FlightOk(s, s.inFlight[q.name]); }
    MoveKeeps(s, r, Start);
  }

  lemma {:induction false} OpenNewKeeps(s: State, r: nat, handle: nat)
    requires Inv(s) && r < |s.requests| && CanAct(s, s.requests[r], OpenNew(handle))
    ensures Inv(Acted(s, r, OpenNew(handle)))
  {
    var q := s.requests[r];
    assert RequestOk(s, r);
    MoveKeeps(s, r, Linking(q.phase.file, handle));
    var m := Moved(s, r, Linking(q.phase.file, handle));
    var t := Acted(s, r, OpenNew(handle));
    forall n | n in t.inFlight ensures NameOk(t, n) { assert NameOk(m, n); }
    forall load | 0 <= load < |t.flights| ensures FlightOk(t, load) { assert FlightOk(m, load); }
    forall k | 0 <= k < |t.requests| ensures RequestOk(t, k) { assert RequestOk(m, k); }
    assert forall i :: 0 <= i < |s.opens| ==> s.opens[i] in s.libraries;
  }

  lemma {:induction false} FinishKeepsRequest(s: State, r: nat, k: nat)
    requires Inv(s) && r < |s.requests| && CanAct(s, s.requests[r], Finish) && k < |s.requests|
    ensures RequestOk(Acted(s, r, Finish), k)
  {
    assert RequestOk(s, r) && NameOk(s, s.requests[r].name) && FlightOk(s, s.requests[r].load);
    assert RequestOk(s, k);
    hide Inv, NameOk, FlightOk;
  }

  lemma {:induction false} FinishKeepsFlight(s: State, r: nat, load: nat)
    requires Inv(s) && r < |s.requests| && CanAct(s, s.requests[r], Finish) && load < |s.flights|
    ensures FlightOk(Acted(s, r, Finish), load)
  {
    assert RequestOk(s, r) && NameOk(s, s.requests[r].name);
    assert FlightOk(s, load);
  }

  lemma {:induction false} FinishKeeps(s: State, r: nat)
    requires Inv(s) && r < |s.requests| && CanAct(s, s.requests[r], Finish)
    ensures Inv(Acted(s, r, Finish))
  {
    var t := Acted(s, r, Finish);
    assert RequestOk(s, r) && NameOk(s, s.requests[r].name);
    forall n | n in t.inFlight ensures NameOk(t, n) {
      assert NameOk(s, n) && FlightOk(s, s.inFlight[n]);
    }
    forall load | 0 <= load < |t.flights| ensures FlightOk(t, load) { FinishKeepsFlight(s, r, load); }
    forall k | 0 <= k < |t.requests| ensures RequestOk(t, k) { FinishKeepsRequest(s, r, k); }
  }

  /** The owner's failure holds every path added before its own request. */
  lemma {:induction false} OwnerSawPaths(s: State, r: nat)
    requires Inv(s) && r < |s.requests| && s.requests[r].phase.Publishing? && s.requests[r].phase.outcome.Failed?
    ensures var q := s.requests[r]; q.begun <= |s.paths| && s.paths[..q.begun] <= q.phase.outcome.locations
  {
    var q := s.requests[r];
    assert RequestOk(s, r) && FlightOk(s, q.load);
    assert s.paths[..q.begun] == s.paths[..s.flights[q.load].version][..q.begun];
  }

  lemma {:induction false} PublishKeepsRequest(s: State, r: nat, k: nat)
    requires Inv(s) && r < |s.requests| && CanAct(s, s.requests[r], Publish) && k < |s.requests|
    ensures RequestOk(Acted(s, r, Publish), k)
  {
    assert RequestOk(s, r) && RequestOk(s, k);
    if k == r && s.requests[r].phase.outcome.Failed? { OwnerSawPaths(s, r); }
  }

  lemma {:induction false} PublishKeepsFlight(s: State, r: nat, load: nat)
    requires Inv(s) && r < |s.requests| && CanAct(s, s.requests[r], Publish) && load < |s.flights|
    ensures FlightOk(Acted(s, r, Publish), load)
  {
    assert RequestOk(s, r) && FlightOk(s, load);
  }

  lemma {:induction false} PublishKeeps(s: State, r: nat)
    requires Inv(s) && r < |s.requests| && CanAct(s, s.requests[r], Publish)
    ensures Inv(Acted(s, r, Publish))
  {
    var t := Acted(s, r, Publish);
    assert RequestOk(s, r);
    forall n | n in t.inFlight ensures NameOk(t, n) { assert NameOk(s, n) && FlightOk(s, s.inFlight[n]); }
    forall load | 0 <= load < |t.flights| ensures FlightOk(t, load) { PublishKeepsFlight(s, r, load); }
    forall k | 0 <= k < |t.requests| ensures RequestOk(t, k) { PublishKeepsRequest(s, r, k); }
  }

  lemma {:induction false} InLoadKeeps(s: State, r: nat, action: Action)
    requires Inv(s) && r < |s.requests| && CanAct(s, s.requests[r], action) && InLoad(s.requests[r].phase)
    ensures Inv(Acted(s, r, action))
  {
    assert RequestOk(s, r);
    if action.OpenNew? { OpenNewKeeps(s, r, action.handle); }
    else { MoveKeeps(s, r, Acted(s, r, action).requests[r].phase); }
  }

  lemma {:induction false} ActKeeps(s: State, r: nat, action: Action)
    requires Inv(s) && r < |s.requests| && CanAct(s, s.requests[r], action)
    ensures Inv(Acted(s, r, action))
  {
    if InLoad(s.requests[r].phase) { InLoadKeeps(s, r, action); }
    else if action.Lookup? { assert RequestOk(s, r); MoveKeeps(s, r, Acted(s, r, action).requests[r].phase); }
    else if action.Enter? { EnterKeeps(s, r); }
    else if action.Share? { ShareKeeps(s, r); }
    else if action.Wake? { WakeKeeps(s, r); }
    else if action.Finish? { FinishKeeps(s, r); }
    else { PublishKeeps(s, r); }
  }

  lemma {:induction false} StepKeeps(s: State, step: Step)
    requires Inv(s) && Enabled(s, step)
    ensures Inv(Do(s, step))
  {
    match step
    case Arrive(name, org, library) => ArriveKeeps(s, name, org, library);
    case PathAdd(path) => PathAddKeeps(s, path);
    case Act(r, action) => ActKeeps(s, r, action);
  }

  // ── Every run ──────────────────────────────────────────────

  /** The state after a run, if every step of it can be taken. */
  function After(s: State, steps: seq<Step>): Option<State>
    decreases |steps|
  {
    if steps == [] then Some(s)
    else if Enabled(s, steps[0]) then After(Do(s, steps[0]), steps[1..]) else None
  }

  lemma {:induction false} RunKeeps(s: State, steps: seq<Step>)
    requires Inv(s) && After(s, steps).Some?
    ensures Inv(After(s, steps).value)
    decreases |steps|
  {
    if steps != [] {
      StepKeeps(s, steps[0]);
      RunKeeps(Do(s, steps[0]), steps[1..]);
    }
  }

  /** A state some interleaving reaches. */
  ghost predicate Reachable(s: State) {
    exists steps :: After(INIT, steps) == Some(s)
  }

  lemma {:induction false} ReachableInv(s: State)
    requires Reachable(s)
    ensures Inv(s)
  {
    var steps :| After(INIT, steps) == Some(s);
    RunKeeps(INIT, steps);
  }

  /** At most one request works on a name at a time. */
  lemma {:induction false} OneLoadPerName(s: State, i: nat, j: nat)
    requires Reachable(s) && i < |s.requests| && j < |s.requests|
    requires s.requests[i].name == s.requests[j].name && Owning(s.requests[i].phase) && Owning(s.requests[j].phase)
    ensures i == j
  {
    ReachableInv(s);
    assert RequestOk(s, i) && RequestOk(s, j);
  }

  /** Every successful request for a name got the same entry. */
  lemma {:induction false} OneEntryPerName(s: State, i: nat, j: nat)
    requires Reachable(s) && i < |s.requests| && j < |s.requests| && s.requests[i].name == s.requests[j].name
    requires s.requests[i].phase.Returned? && s.requests[i].phase.outcome.Loaded?
    requires s.requests[j].phase.Returned? && s.requests[j].phase.outcome.Loaded?
    ensures s.requests[i].phase.outcome == s.requests[j].phase.outcome
  {
    ReachableInv(s);
    assert RequestOk(s, i) && RequestOk(s, j);
  }

  /** No file identity is opened successfully twice, whatever names reach it. */
  lemma {:induction false} OpenedOnce(s: State, i: nat, j: nat)
    requires Reachable(s) && i < j < |s.opens|
    ensures s.opens[i] != s.opens[j]
  {
    ReachableInv(s);
  }

  /** A failure that a request got was computed from a list that begins with every path added before
      the request began. */
  lemma {:induction false} FailureSawEveryPath(s: State, r: nat)
    requires Reachable(s) && r < |s.requests| && s.requests[r].phase.Returned? && s.requests[r].phase.outcome.Failed?
    ensures s.requests[r].begun <= |s.paths| && s.paths[..s.requests[r].begun] <= s.requests[r].phase.outcome.locations
  {
    ReachableInv(s);
    assert RequestOk(s, r);
  }

  /** A request starts again at most once more than paths were added during it. */
  lemma {:induction false} RetriesBounded(s: State, r: nat)
    requires Reachable(s) && r < |s.requests|
    ensures s.requests[r].begun <= |s.paths| && s.requests[r].waits <= 1 + |s.paths| - s.requests[r].begun
  {
    ReachableInv(s);
    assert RequestOk(s, r);
  }

  lemma {:induction false} StepKeepsEntries(s: State, step: Step, name: string)
    requires Inv(s) && Enabled(s, step) && name in s.entries
    ensures name in Do(s, step).entries && Do(s, step).entries[name] == s.entries[name]
  {
    if step.Act? && step.action.Finish? {
      assert RequestOk(s, step.r) && NameOk(s, s.requests[step.r].name);
    }
  }

  /** An entry once stored never changes and never goes, in any run from any reachable state. */
  lemma {:induction false} EntriesNeverChange(s: State, steps: seq<Step>, name: string)
    requires Inv(s) && After(s, steps).Some? && name in s.entries
    ensures name in After(s, steps).value.entries && After(s, steps).value.entries[name] == s.entries[name]
    decreases |steps|
  {
    if steps != [] {
      StepKeeps(s, steps[0]);
      StepKeepsEntries(s, steps[0], name);
      EntriesNeverChange(Do(s, steps[0]), steps[1..], name);
    }
  }

  /** A failed load leaves no trace: its name is neither an entry nor in flight, so a later request
      starts over. */
  lemma {:induction false} FailureForgotten(s: State, r: nat)
    requires Inv(s) && Enabled(s, Act(r, Finish)) && !s.requests[r].phase.outcome.Loaded?
    ensures var t := Do(s, Act(r, Finish)); s.requests[r].name !in t.entries && s.requests[r].name !in t.inFlight
  {
    assert RequestOk(s, r) && NameOk(s, s.requests[r].name);
  }

  // ── Progress ───────────────────────────────────────────────

  /** An action the request can always take in a phase that does not wait for another. */
  function Ready(s: State, q: Request): Action {
    match q.phase
    case Start => Lookup
    case Locking => Enter
    case Sharing(_) => Share
    case Waiting(_) => Wake
    case Searching => SearchMiss
    case Opening(_, identity) => if identity in s.libraries then OpenKnown else OpenFail
    case Linking(_, _) => LinkFail
    case Finishing(_) => Finish
    case Publishing(_) => Publish
    case Returned(_) => Lookup
  }

  lemma {:induction false} WorkerCanAct(s: State, r: nat)
    requires Inv(s) && r < |s.requests|
    requires var p := s.requests[r].phase; !p.Returned? && !p.Sharing? && !p.Waiting?
    ensures Enabled(s, Act(r, Ready(s, s.requests[r])))
  {
    assert RequestOk(s, r);
    if s.requests[r].name in s.inFlight { assert NameOk(s, s.requests[r].name); }
  }

  /** The request shares or waits for a load that is still under way, which request k works on. */
  ghost predicate IsOwnerFor(s: State, q: Request, k: nat) {
    && (q.phase.Sharing? || q.phase.Waiting?) && q.phase.load < |s.flights|
    && s.flights[q.phase.load].result.None? && s.flights[q.phase.load].owner == k
  }

  /** No deadlock: as long as a request has not returned, it or the owner of the load it waits for can
      take a step. */
  lemma {:induction false} NoDeadlock(s: State, r: nat) returns (k: nat, action: Action)
    requires Reachable(s) && r < |s.requests| && !s.requests[r].phase.Returned?
    ensures Enabled(s, Act(k, action))
    ensures k == r || IsOwnerFor(s, s.requests[r], k)
  {
    ReachableInv(s);
    var q := s.requests[r];
    assert RequestOk(s, r);
    k := r;
    if q.phase.Sharing? || q.phase.Waiting? {
      assert FlightOk(s, q.phase.load);
      if s.flights[q.phase.load].result.None? { k := s.flights[q.phase.load].owner; }
    }
    if k != r || (!q.phase.Sharing? && !q.phase.Waiting?) { WorkerCanAct(s, k); }
    action := Ready(s, s.requests[k]);
  }

  function PhaseRank(p: Phase): nat {
    match p
    case Waiting(_) => 10
    case Start => 9
    case Locking => 8
    case Searching => 6
    case Opening(_, _) => 5
    case Linking(_, _) => 4
    case Finishing(_) => 3
    case Publishing(_) => 2
    case Sharing(_) => 1
    case Returned(_) => 0
  }

  /** Steps a request can still take while no path is added. */
  function Rank(q: Request, version: nat): int {
    11 * (2 + version - q.begun - q.waits) + PhaseRank(q.phase)
  }

  function TotalRank(requests: seq<Request>, version: nat): int {
    if requests == [] then 0 else TotalRank(requests[..|requests| - 1], version) + Rank(requests[|requests| - 1], version)
  }

  lemma {:induction false} RankUpdate(requests: seq<Request>, version: nat, r: nat, q: Request)
    requires r < |requests|
    ensures TotalRank(requests[r := q], version) == TotalRank(requests, version) - Rank(requests[r], version) + Rank(q, version)
    decreases |requests|
  {
    var n := |requests| - 1;
    if r < n {
      RankUpdate(requests[..n], version, r, q);
      assert requests[r := q][..n] == requests[..n][r := q];
    } else {
      assert requests[r := q][..n] == requests[..n];
    }
  }

  lemma {:induction false} RankNotNegative(s: State, n: nat)
    requires Inv(s) && n <= |s.requests|
    ensures TotalRank(s.requests[..n], s.version) >= 0
  {
    if n > 0 {
      RankNotNegative(s, n - 1);
      assert RequestOk(s, n - 1);
      assert s.requests[..n][..n - 1] == s.requests[..n - 1];
    }
  }

  lemma {:induction false} EnterOne(s: State, r: nat)
    requires r < |s.requests| && CanAct(s, s.requests[r], Enter)
    ensures var t := Entered(s, r);
      && t.version == s.version && |t.requests| == |s.requests| && t.requests == s.requests[r := t.requests[r]]
      && Rank(t.requests[r], s.version) < Rank(s.requests[r], s.version)
  {
  }

  lemma {:induction false} ActOne(s: State, r: nat, action: Action)
    requires r < |s.requests| && CanAct(s, s.requests[r], action)
    ensures var t := Acted(s, r, action);
      && t.version == s.version && |t.requests| == |s.requests| && t.requests == s.requests[r := t.requests[r]]
      && Rank(t.requests[r], s.version) < Rank(s.requests[r], s.version)
  {
    hide Entered;
    if action.Enter? { EnterOne(s, r); }
  }

  /** Every step of a request uses up some of what is left. */
  lemma {:induction false} ActDescends(s: State, r: nat, action: Action)
    requires Inv(s) && r < |s.requests| && CanAct(s, s.requests[r], action)
    ensures var t := Acted(s, r, action);
      t.version == s.version && TotalRank(t.requests, t.version) < TotalRank(s.requests, s.version)
  {
    ActOne(s, r, action);
    RankUpdate(s.requests, s.version, r, Acted(s, r, action).requests[r]);
  }

  /** Without new requests and paths a run cannot go on: it has fewer steps than the rank of the
      state it starts from. With NoDeadlock, every request returns. */
  lemma {:induction false} RunsEnd(s: State, steps: seq<Step>)
    requires Inv(s) && After(s, steps).Some? && forall i :: 0 <= i < |steps| ==> steps[i].Act?
    ensures |steps| <= TotalRank(s.requests, s.version)
    decreases |steps|
  {
    if steps == [] {
      RankNotNegative(s, |s.requests|);
      assert s.requests[..|s.requests|] == s.requests;
    } else {
      ActDescends(s, steps[0].r, steps[0].action);
      StepKeeps(s, steps[0]);
      RunsEnd(Do(s, steps[0]), steps[1..]);
    }
  }
}

/** Replacing a file's bytes, as a step system: any number of interleaved calls, one step for each system
    call, every one of which may fail, and a kill at any point. */
module FileReplace {
  import opened Bytes

  const MAX_NAME_ATTEMPTS := 100

  /** A file's mode, as the set of its bits. */
  type Mode = set<nat>

  /** The mode of a new file opened with no permissions, and the bits a change of owner clears. */
  const REGULAR: Mode := {15}
  const SET_ID: Mode := {10, 11}

  /** The twelve low bits. */
  function Permissions(mode: Mode): Mode {
    set b | b in mode && b < 12
  }

  /** The mode of a regular file with the permissions of another mode. */
  function RegularWith(mode: Mode): Mode {
    REGULAR + Permissions(mode)
  }

  lemma {:induction false} ModeFacts(mode: Mode)
    ensures Permissions(RegularWith(mode)) == Permissions(mode) && Permissions(REGULAR) == {} && REGULAR - SET_ID == REGULAR
  {
    assert forall b :: b in Permissions(RegularWith(mode)) <==> b in Permissions(mode);
  }

  /** Files callers name, and the hidden working files beside them. */
  datatype Name = Plain(path: string) | Working(target: string, tag: nat)

  datatype Inode = Inode(data: Buffer, mode: Mode)

  datatype Phase =
    | Begin                          // about to read the status
    | Naming(attempt: nat)           // about to create the working file
    | Writing(offset: nat)
    | Permitting | Flushing | Closing | Renaming
    | FlushingFolder                 // the rename is committed
    | Unwinding                      // an exception: about to close
    | Unlinking                      // about to remove the working file
    | Returned | Threw | Killed

  /** A call. `created`, `committed` and `tag` are the working file's fields, `gone` tells that it was unlinked;
      `mode` is what the status call gave. */
  datatype Call = Call(target: string, bytes: Buffer, phase: Phase, created: bool, committed: bool, gone: bool,
                       tag: nat, inode: nat, mode: Mode)

  /** A completed rename, in the order they happened. */
  datatype Commit = Commit(call: nat, target: string, bytes: Buffer, inode: nat)

  /** `makers[k]` is the call that created the k-th inode beyond the first ones; `commits` is a history. */
  datatype State = State(names: map<Name, nat>, inodes: seq<Inode>, calls: seq<Call>, makers: seq<nat>, commits: seq<Commit>)

  datatype Action =
    | Refuse                         // the status or a permission check fails
    | Stat
    | Open(tag: nat)                 // a name that exists already is one failed attempt
    | OpenFail
    | GiveUp
    | Write(count: nat) | Interrupted | WriteFail
    | Chown(ok: bool) | Chmod(ok: bool) | Sync(ok: bool) | Close(ok: bool) | Rename(ok: bool) | SyncFolder(ok: bool)
    | Unwind                         // the destructor's close
    | Unlink(ok: bool)
    | Kill

  datatype Step = Arrive(target: string, bytes: Buffer) | Act(c: nat, action: Action)

  predicate Finished(p: Phase) {
    p.Returned? || p.Threw? || p.Killed?
  }

  function PathOf(q: Call): Name {
    Working(q.target, q.tag)
  }

  /** What the file system knows of a name a step uses. */
  predicate Linked(s: State, name: Name) {
    name in s.names && s.names[name] < |s.inodes|
  }

  predicate CanAct(s: State, q: Call, action: Action) {
    match action
    case Refuse => q.phase.Begin?
    case Stat => q.phase.Begin? && Linked(s, Plain(q.target))
    case Open(_) => q.phase.Naming? && q.phase.attempt < MAX_NAME_ATTEMPTS
    case OpenFail => q.phase.Naming? && q.phase.attempt < MAX_NAME_ATTEMPTS
    case GiveUp => q.phase.Naming? && q.phase.attempt >= MAX_NAME_ATTEMPTS
    case Write(count) => q.phase.Writing? && 0 < count && q.phase.offset + count <= |q.bytes| && q.inode < |s.inodes|
    case Interrupted => q.phase.Writing? && q.phase.offset < |q.bytes|
    case WriteFail => q.phase.Writing? && q.phase.offset < |q.bytes|
    case Chown(_) => q.phase.Writing? && q.phase.offset == |q.bytes| && q.inode < |s.inodes|
    case Chmod(_) => q.phase.Permitting? && q.inode < |s.inodes|
    case Sync(_) => q.phase.Flushing?
    case Close(_) => q.phase.Closing?
    case Rename(_) => q.phase.Renaming? && Linked(s, PathOf(q))
    case SyncFolder(_) => q.phase.FlushingFolder?
    case Unwind => q.phase.Unwinding?
    case Unlink(_) => q.phase.Unlinking?
    case Kill => !Finished(q.phase)
  }

  predicate Enabled(s: State, step: Step) {
    step.Act? ==> step.c < |s.calls| && CanAct(s, s.calls[step.c], step.action)
  }

  function Moved(s: State, c: nat, phase: Phase): State
    requires c < |s.calls|
  {
    s.(calls := s.calls[c := s.calls[c].(phase := phase)])
  }

  function Stored(s: State, i: nat, node: Inode): State
    requires i < |s.inodes|
  {
    s.(inodes := s.inodes[i := node])
  }

  /** On, or into the destructor. */
  function Onward(ok: bool, phase: Phase): Phase {
    if ok then phase else Unwinding
  }

  /** A new empty file with no permissions at all. */
  function Created(s: State, c: nat, tag: nat): State
    requires c < |s.calls|
  {
    var q := s.calls[c].(tag := tag, inode := |s.inodes|, created := true, phase := Writing(0));
    State(s.names[PathOf(q) := |s.inodes|], s.inodes + [Inode([], REGULAR)], s.calls[c := q], s.makers + [c], s.commits)
  }

  /** The target names the working file's inode, and the working name is gone. */
  function Renamed(s: State, c: nat): State
    requires c < |s.calls| && PathOf(s.calls[c]) in s.names
  {
    var q := s.calls[c];
    s.(names := (s.names - {PathOf(q)})[Plain(q.target) := s.names[PathOf(q)]],
       calls := s.calls[c := q.(phase := FlushingFolder, committed := true)],
       commits := s.commits + [Commit(c, q.target, q.bytes, s.names[PathOf(q)])])
  }

  function Unlinked(s: State, c: nat): State
    requires c < |s.calls|
  {
    var q := s.calls[c];
    s.(names := s.names - {PathOf(q)}, calls := s.calls[c := q.(phase := Threw, gone := true)])
  }

  function Acted(s: State, c: nat, action: Action): State
    requires c < |s.calls| && CanAct(s, s.calls[c], action)
  {
    var q := s.calls[c];
    match action
    case Refuse => Moved(s, c, Threw)
    case Stat => s.(calls := s.calls[c := q.(phase := Naming(0), mode := s.inodes[s.names[Plain(q.target)]].mode)])
    case Open(tag) => if Working(q.target, tag) in s.names then Moved(s, c, Naming(q.phase.attempt + 1)) else Created(s, c, tag)
    case OpenFail => Moved(s, c, Threw)
    case GiveUp => Moved(s, c, Threw)
    case Write(count) =>
      Moved(Stored(s, q.inode, s.inodes[q.inode].(data := s.inodes[q.inode].data + q.bytes[q.phase.offset..q.phase.offset + count])),
            c, Writing(q.phase.offset + count))
    case Interrupted => s
    case WriteFail => Moved(s, c, Unwinding)
    case Chown(ok) =>
      Moved(if ok then Stored(s, q.inode, s.inodes[q.inode].(mode := s.inodes[q.inode].mode - SET_ID)) else s, c, Permitting)
    case Chmod(ok) =>
      Moved(if ok then Stored(s, q.inode, s.inodes[q.inode].(mode := RegularWith(q.mode))) else s, c, Onward(ok, Flushing))
    case Sync(ok) => Moved(s, c, Onward(ok, Closing))
    case Close(ok) => Moved(s, c, Onward(ok, Renaming))
    case Rename(ok) => if ok then Renamed(s, c) else Moved(s, c, Unwinding)
    case SyncFolder(_) => Moved(s, c, Returned)
    case Unwind => Moved(s, c, Unlinking)
    case Unlink(ok) => if ok then Unlinked(s, c) else Moved(s, c, Threw)
    case Kill => Moved(s, c, Killed)
  }

  function Do(s: State, step: Step): State
    requires Enabled(s, step)
  {
    match step
    case Arrive(target, bytes) => s.(calls := s.calls + [Call(target, bytes, Begin, false, false, false, 0, 0, {})])
    case Act(c, action) => Acted(s, c, action)
  }

  // ── Runs ───────────────────────────────────────────────────

  /** The files there are before any call: any names, hard links and stale working files included. */
  datatype Disk = Disk(names: map<Name, nat>, inodes: seq<Inode>)

  predicate Sound(d: Disk) {
    forall n :: n in d.names ==> d.names[n] < |d.inodes|
  }

  function Initially(d: Disk): State {
    State(d.names, d.inodes, [], [], [])
  }

  predicate Runs(s: State, steps: seq<Step>)
    decreases |steps|
  {
    steps == [] || (Enabled(s, steps[0]) && Runs(Do(s, steps[0]), steps[1..]))
  }

  function Run(s: State, steps: seq<Step>): State
    requires Runs(s, steps)
    decreases |steps|
  {
    if steps == [] then s else Run(Do(s, steps[0]), steps[1..])
  }

  /** The inode a name should have: that of the last rename onto it. */
  function Latest(d: Disk, commits: seq<Commit>, x: string): nat
    requires Plain(x) in d.names
    decreases |commits|
  {
    if commits == [] then d.names[Plain(x)]
    else if commits[|commits| - 1].target == x then commits[|commits| - 1].inode
    else Latest(d, commits[..|commits| - 1], x)
  }

  /** The bytes a file should have: those of the last call whose rename happened, or the first ones. */
  function Expected(d: Disk, commits: seq<Commit>, x: string): Buffer
    requires Sound(d) && Plain(x) in d.names
    decreases |commits|
  {
    if commits == [] then d.inodes[d.names[Plain(x)]].data
    else if commits[|commits| - 1].target == x then commits[|commits| - 1].bytes
    else Expected(d, commits[..|commits| - 1], x)
  }

  // ── Invariant ──────────────────────────────────────────────

  /** The call has a working file that is still there. */
  predicate Holds(q: Call) {
    q.created && !q.committed && !q.gone
  }

  predicate FlagsOk(q: Call) {
    match q.phase
    case Begin => !q.created && !q.committed && !q.gone
    case Naming(attempt) => !q.created && !q.committed && !q.gone && attempt <= MAX_NAME_ATTEMPTS
    case FlushingFolder => q.created && q.committed
    case Returned => q.created && q.committed
    case Threw => !q.committed
    case Killed => q.committed ==> q.created
    case _ => Holds(q)
  }

  /** What the working file holds at each point. */
  predicate ContentOk(q: Call, node: Inode) {
    match q.phase
    case Writing(offset) => offset <= |q.bytes| && node == Inode(q.bytes[..offset], REGULAR)
    case Permitting => node == Inode(q.bytes, REGULAR)
    case Flushing => node == Inode(q.bytes, RegularWith(q.mode))
    case Closing => node == Inode(q.bytes, RegularWith(q.mode))
    case Renaming => node == Inode(q.bytes, RegularWith(q.mode))
    case _ =>
      && (node.mode == REGULAR || node.mode == RegularWith(q.mode))
      && (q.committed ==> node == Inode(q.bytes, RegularWith(q.mode)))
  }

  /** The permissions the target had at the start. */
  function FirstPermissions(d: Disk, x: string): Mode
    requires Sound(d)
  {
    if Plain(x) in d.names then Permissions(d.inodes[d.names[Plain(x)]].mode) else {}
  }

  ghost predicate CallOk(d: Disk, s: State, c: nat)
    requires Sound(d) && c < |s.calls|
  {
    var q := s.calls[c];
    && FlagsOk(q)
    && (!q.phase.Begin? && !(q.phase.Threw? || q.phase.Killed?) ==> Plain(q.target) in d.names)
    && (q.created ==>
          && Plain(q.target) in d.names && Permissions(q.mode) == FirstPermissions(d, q.target)
          && |d.inodes| <= q.inode < |s.inodes| && q.inode - |d.inodes| < |s.makers| && s.makers[q.inode - |d.inodes|] == c
          && ContentOk(q, s.inodes[q.inode]))
    && (q.phase.Naming? ==> Permissions(q.mode) == FirstPermissions(d, q.target))
    && (Holds(q) ==> PathOf(q) in s.names && s.names[PathOf(q)] == q.inode)
  }

  ghost predicate WorkingNameOk(d: Disk, s: State, n: Name)
    requires n in s.names
  {
    if n in d.names then s.names[n] == d.names[n]
    else
      var i := s.names[n];
      && |d.inodes| <= i < |s.inodes| && i - |d.inodes| < |s.makers| && s.makers[i - |d.inodes|] < |s.calls|
      && (var q := s.calls[s.makers[i - |d.inodes|]]; Holds(q) && q.inode == i && PathOf(q) == n)
  }

  ghost predicate CommitOk(s: State, k: nat)
    requires k < |s.commits|
  {
    var m := s.commits[k];
    && m.call < |s.calls| && s.calls[m.call].committed && s.calls[m.call].created
    && s.calls[m.call].target == m.target && s.calls[m.call].bytes == m.bytes && s.calls[m.call].inode == m.inode
  }

  ghost predicate CommitsOnce(s: State) {
    && (forall j, k :: 0 <= j < k < |s.commits| ==> s.commits[j].call != s.commits[k].call)
    && (forall c :: 0 <= c < |s.calls| && s.calls[c].committed ==> exists k :: 0 <= k < |s.commits| && s.commits[k].call == c)
  }

  ghost predicate Inv(d: Disk, s: State)
    requires Sound(d)
  {
    && |s.inodes| == |d.inodes| + |s.makers|
    && d.inodes <= s.inodes
    && (forall c :: 0 <= c < |s.calls| ==> CallOk(d, s, c))
    && (forall n :: n in s.names && n.Working? ==> WorkingNameOk(d, s, n))
    && (forall n :: n in d.names ==> n in s.names)
    && (forall n :: n in s.names && n.Plain? ==> n in d.names && s.names[n] == Latest(d, s.commits, n.path))
    && (forall k :: 0 <= k < |s.commits| ==> CommitOk(s, k))
    && CommitsOnce(s)
  }

  /** Two calls never share an inode they created. */
  lemma {:induction false} OwnInode(d: Disk, s: State, b: nat, c: nat)
    requires Sound(d) && b < |s.calls| && c < |s.calls| && CallOk(d, s, b) && CallOk(d, s, c)
    requires s.calls[b].created && s.calls[c].created && s.calls[b].inode == s.calls[c].inode
    ensures b == c
  {
  }

  lemma {:induction false} MoveKeeps(d: Disk, s: State, c: nat, q: Call)
    requires Sound(d) && Inv(d, s) && c < |s.calls|
    requires var p := s.calls[c]; q == p.(phase := q.phase, mode := q.mode) && (p.created ==> q.mode == p.mode)
    requires CallOk(d, s.(calls := s.calls[c := q]), c)
    ensures Inv(d, s.(calls := s.calls[c := q]))
  {
    var t := s.(calls := s.calls[c := q]);
    forall b | 0 <= b < |t.calls| ensures CallOk(d, t, b) { assert CallOk(d, s, b); }
    forall n | n in t.names && n.Working? ensures WorkingNameOk(d, t, n) { assert WorkingNameOk(d, s, n); }
    forall k | 0 <= k < |t.commits| ensures CommitOk(t, k) { assert CommitOk(s, k); }
    forall b | 0 <= b < |t.calls| && t.calls[b].committed
      ensures exists k :: 0 <= k < |t.commits| && t.commits[k].call == b
    {
      assert s.calls[b].committed;
    }
  }

  lemma {:induction false} ArriveKeeps(d: Disk, s: State, target: string, bytes: Buffer)
    requires Sound(d) && Inv(d, s)
    ensures Inv(d, Do(s, Arrive(target, bytes)))
  {
    var t := Do(s, Arrive(target, bytes));
    forall b | 0 <= b < |t.calls| ensures CallOk(d, t, b) {
      if b < |s.calls| { assert CallOk(d, s, b); }
    }
    forall n | n in t.names && n.Working? ensures WorkingNameOk(d, t, n) { assert WorkingNameOk(d, s, n); }
    forall k | 0 <= k < |t.commits| ensures CommitOk(t, k) { assert CommitOk(s, k); }
    forall b | 0 <= b < |t.calls| && t.calls[b].committed
      ensures exists k :: 0 <= k < |t.commits| && t.commits[k].call == b
    {
      assert s.calls[b].committed;
    }
  }

  /** Changing the inode a call works on, and the call's phase with it. */
  lemma {:induction false} StoreKeeps(d: Disk, s: State, c: nat, node: Inode, phase: Phase)
    requires Sound(d) && Inv(d, s) && c < |s.calls| && Holds(s.calls[c]) && s.calls[c].inode < |s.inodes|
    requires CallOk(d, Moved(Stored(s, s.calls[c].inode, node), c, phase), c)
    ensures Inv(d, Moved(Stored(s, s.calls[c].inode, node), c, phase))
  {
    var t := Moved(Stored(s, s.calls[c].inode, node), c, phase);
    assert CallOk(d, s, c);
    forall b | 0 <= b < |t.calls| ensures CallOk(d, t, b) {
      assert CallOk(d, s, b);
      if b != c && s.calls[b].created && s.calls[b].inode == s.calls[c].inode {
        OwnInode(d, s, b, c);
        assert false;
      }
    }
    forall n | n in t.names && n.Working? ensures WorkingNameOk(d, t, n) { assert WorkingNameOk(d, s, n); }
    forall k | 0 <= k < |t.commits| ensures CommitOk(t, k) { assert CommitOk(s, k); }
    forall b | 0 <= b < |t.calls| && t.calls[b].committed
      ensures exists k :: 0 <= k < |t.commits| && t.commits[k].call == b
    {
      assert s.calls[b].committed;
    }
  }

  lemma {:induction false} CreateKeeps(d: Disk, s: State, c: nat, tag: nat)
    requires Sound(d) && Inv(d, s) && c < |s.calls| && s.calls[c].phase.Naming? && Working(s.calls[c].target, tag) !in s.names
    ensures Inv(d, Created(s, c, tag))
  {
    var t := Created(s, c, tag);
    assert CallOk(d, s, c);
    forall b | 0 <= b < |t.calls| ensures CallOk(d, t, b) { assert CallOk(d, s, b); }
    forall n | n in t.names && n.Working? ensures WorkingNameOk(d, t, n) {
      if n != Working(s.calls[c].target, tag) { assert WorkingNameOk(d, s, n); }
    }
    forall k | 0 <= k < |t.commits| ensures CommitOk(t, k) { assert CommitOk(s, k); }
    forall b | 0 <= b < |t.calls| && t.calls[b].committed
      ensures exists k :: 0 <= k < |t.commits| && t.commits[k].call == b
    {
      assert s.calls[b].committed;
    }
  }

  /** A call that lost its own name still leaves everyone else's alone. */
  lemma {:induction false} OthersKeepNames(d: Disk, s: State, b: nat, c: nat)
    requires Sound(d) && Inv(d, s) && b < |s.calls| && c < |s.calls| && b != c && Holds(s.calls[b]) && Holds(s.calls[c])
    ensures PathOf(s.calls[b]) != PathOf(s.calls[c])
  {
    assert CallOk(d, s, b) && CallOk(d, s, c);
  }

  lemma {:induction false} NotInitial(d: Disk, s: State, c: nat)
    requires Sound(d) && Inv(d, s) && c < |s.calls| && Holds(s.calls[c])
    ensures PathOf(s.calls[c]) !in d.names
  {
    assert CallOk(d, s, c) && WorkingNameOk(d, s, PathOf(s.calls[c]));
  }

  lemma {:induction false} UnlinkKeeps(d: Disk, s: State, c: nat)
    requires Sound(d) && Inv(d, s) && c < |s.calls| && s.calls[c].phase.Unlinking?
    ensures Inv(d, Unlinked(s, c))
  {
    var t := Unlinked(s, c);
    assert CallOk(d, s, c);
    NotInitial(d, s, c);
    forall b | 0 <= b < |t.calls| ensures CallOk(d, t, b) {
      assert CallOk(d, s, b);
      if b != c && Holds(s.calls[b]) { OthersKeepNames(d, s, b, c); }
    }
    forall n | n in t.names && n.Working? ensures WorkingNameOk(d, t, n) { assert WorkingNameOk(d, s, n); }
    forall k | 0 <= k < |t.commits| ensures CommitOk(t, k) { assert CommitOk(s, k); }
    forall b | 0 <= b < |t.calls| && t.calls[b].committed
      ensures exists k :: 0 <= k < |t.commits| && t.commits[k].call == b
    {
      assert s.calls[b].committed;
    }
  }

  lemma {:induction false} RenameKeepsCommits(d: Disk, s: State, c: nat)
    requires Sound(d) && Inv(d, s) && c < |s.calls| && CanAct(s, s.calls[c], Rename(true))
    ensures var t := Renamed(s, c); (forall k :: 0 <= k < |t.commits| ==> CommitOk(t, k)) && CommitsOnce(t)
  {
    var t := Renamed(s, c);
    assert CallOk(d, s, c);
    forall k | 0 <= k < |t.commits| ensures CommitOk(t, k) {
      if k < |s.commits| { assert CommitOk(s, k); }
    }
    forall j, k | 0 <= j < k < |t.commits| ensures t.commits[j].call != t.commits[k].call {
      assert CommitOk(s, j);
    }
    forall b | 0 <= b < |t.calls| && t.calls[b].committed
      ensures exists k :: 0 <= k < |t.commits| && t.commits[k].call == b
    {
      if b == c {
        assert t.commits[|s.commits|].call == b;
      } else {
        var k :| 0 <= k < |s.commits| && s.commits[k].call == b;
        assert t.commits[k].call == b;
      }
    }
  }

  lemma {:induction false} RenameKeepsNames(d: Disk, s: State, c: nat)
    requires Sound(d) && Inv(d, s) && c < |s.calls| && CanAct(s, s.calls[c], Rename(true))
    ensures var t := Renamed(s, c);
      && (forall n :: n in t.names && n.Working? ==> WorkingNameOk(d, t, n))
      && (forall n :: n in d.names ==> n in t.names)
      && (forall n :: n in t.names && n.Plain? ==> n in d.names && t.names[n] == Latest(d, t.commits, n.path))
  {
    var t := Renamed(s, c);
    assert CallOk(d, s, c);
    NotInitial(d, s, c);
    forall n | n in t.names && n.Working? ensures WorkingNameOk(d, t, n) { assert WorkingNameOk(d, s, n); }
    assert t.commits[..|t.commits| - 1] == s.commits;
  }

  lemma {:induction false} RenameKeeps(d: Disk, s: State, c: nat)
    requires Sound(d) && Inv(d, s) && c < |s.calls| && CanAct(s, s.calls[c], Rename(true))
    ensures Inv(d, Renamed(s, c))
  {
    var t := Renamed(s, c);
    assert CallOk(d, s, c);
    forall b | 0 <= b < |t.calls| ensures CallOk(d, t, b) {
      assert CallOk(d, s, b);
      if b != c && Holds(s.calls[b]) { OthersKeepNames(d, s, b, c); }
    }
    RenameKeepsCommits(d, s, c);
    RenameKeepsNames(d, s, c);
  }

  lemma {:induction false} InodePermissions(d: Disk, s: State, x: string)
    requires Sound(d) && Inv(d, s) && Plain(x) in s.names
    ensures Linked(s, Plain(x)) && Permissions(s.inodes[s.names[Plain(x)]].mode) == FirstPermissions(d, x)
  {
    LatestOk(d, s, s.commits, x);
  }

  lemma {:induction false} LatestOk(d: Disk, s: State, commits: seq<Commit>, x: string)
    requires Sound(d) && Inv(d, s) && commits <= s.commits && Plain(x) in d.names
    ensures var i := Latest(d, commits, x);
      i < |s.inodes| && s.inodes[i].data == Expected(d, commits, x) && Permissions(s.inodes[i].mode) == FirstPermissions(d, x)
    decreases |commits|
  {
    if commits == [] {
      assert s.inodes[d.names[Plain(x)]] == d.inodes[d.names[Plain(x)]];
    } else if commits[|commits| - 1].target == x {
      assert CommitOk(s, |commits| - 1);
      assert CallOk(d, s, commits[|commits| - 1].call);
      ModeFacts(s.calls[commits[|commits| - 1].call].mode);
    } else {
      LatestOk(d, s, commits[..|commits| - 1], x);
    }
  }

  lemma {:induction false} CallIsOk(d: Disk, s: State, c: nat)
    requires Sound(d) && Inv(d, s) && c < |s.calls|
    ensures CallOk(d, s, c)
  {
  }

  lemma {:induction false} WriteKeeps(d: Disk, s: State, c: nat, count: nat)
    requires Sound(d) && Inv(d, s) && c < |s.calls| && CanAct(s, s.calls[c], Write(count))
    ensures Inv(d, Acted(s, c, Write(count)))
  {
    hide Inv;
    CallIsOk(d, s, c);
    var q := s.calls[c];
    var o := q.phase.offset;
    assert q.bytes[..o] + q.bytes[o..o + count] == q.bytes[..o + count];
    StoreKeeps(d, s, c, s.inodes[q.inode].(data := s.inodes[q.inode].data + q.bytes[o..o + count]), Writing(o + count));
  }

  lemma {:induction false} ChownKeeps(d: Disk, s: State, c: nat, ok: bool)
    requires Sound(d) && Inv(d, s) && c < |s.calls| && CanAct(s, s.calls[c], Chown(ok))
    ensures Inv(d, Acted(s, c, Chown(ok)))
  {
    hide Inv;
    CallIsOk(d, s, c);
    var q := s.calls[c];
    ModeFacts(q.mode);
    assert q.bytes[..|q.bytes|] == q.bytes;
    if ok { StoreKeeps(d, s, c, s.inodes[q.inode].(mode := s.inodes[q.inode].mode - SET_ID), Permitting); }
    else { MoveKeeps(d, s, c, q.(phase := Permitting)); }
  }

  lemma {:induction false} ChmodKeeps(d: Disk, s: State, c: nat, ok: bool)
    requires Sound(d) && Inv(d, s) && c < |s.calls| && CanAct(s, s.calls[c], Chmod(ok))
    ensures Inv(d, Acted(s, c, Chmod(ok)))
  {
    hide Inv;
    CallIsOk(d, s, c);
    var q := s.calls[c];
    if ok { StoreKeeps(d, s, c, s.inodes[q.inode].(mode := RegularWith(q.mode)), Flushing); }
    else { MoveKeeps(d, s, c, q.(phase := Unwinding)); }
  }

  /** The steps that only move a call from one phase to the next. */
  predicate Moves(s: State, q: Call, action: Action) {
    match action
    case Open(tag) => Working(q.target, tag) in s.names
    case Rename(ok) => !ok
    case Unlink(ok) => !ok
    case _ => !(action.Stat? || action.Write? || action.Chown? || action.Chmod? || action.Interrupted?)
  }

  lemma {:induction false} MovesCallOk(d: Disk, s: State, c: nat, action: Action)
    requires Sound(d) && c < |s.calls| && CallOk(d, s, c) && CanAct(s, s.calls[c], action) && Moves(s, s.calls[c], action)
    ensures var t := Acted(s, c, action); t == Moved(s, c, t.calls[c].phase) && CallOk(d, t, c)
  {
  }

  lemma {:induction false} ActKeeps(d: Disk, s: State, c: nat, action: Action)
    requires Sound(d) && Inv(d, s) && c < |s.calls| && CanAct(s, s.calls[c], action)
    ensures Inv(d, Acted(s, c, action))
  {
    var q := s.calls[c];
    assert CallOk(d, s, c);
    if action.Write? {
      WriteKeeps(d, s, c, action.count);
    } else if action.Chown? {
      ChownKeeps(d, s, c, action.ok);
    } else if action.Chmod? {
      ChmodKeeps(d, s, c, action.ok);
    } else if action.Stat? {
      InodePermissions(d, s, q.target);
      MoveKeeps(d, s, c, Acted(s, c, action).calls[c]);
    } else if action.Open? && Working(q.target, action.tag) !in s.names {
      CreateKeeps(d, s, c, action.tag);
    } else if action == Rename(true) {
      RenameKeeps(d, s, c);
    } else if action == Unlink(true) {
      UnlinkKeeps(d, s, c);
    } else if !action.Interrupted? {
      MovesCallOk(d, s, c, action);
      MoveKeeps(d, s, c, q.(phase := Acted(s, c, action).calls[c].phase));
    }
  }

  lemma {:induction false} StepKeeps(d: Disk, s: State, step: Step)
    requires Sound(d) && Inv(d, s) && Enabled(s, step)
    ensures Inv(d, Do(s, step))
  {
    match step
    case Arrive(target, bytes) => ArriveKeeps(d, s, target, bytes);
    case Act(c, action) => ActKeeps(d, s, c, action);
  }

  lemma {:induction false} RunKeeps(d: Disk, s: State, steps: seq<Step>)
    requires Sound(d) && Inv(d, s) && Runs(s, steps)
    ensures Inv(d, Run(s, steps))
    decreases |steps|
  {
    if steps != [] {
      StepKeeps(d, s, steps[0]);
      RunKeeps(d, Do(s, steps[0]), steps[1..]);
    }
  }

  ghost predicate Reachable(d: Disk, s: State) {
    exists steps :: Runs(Initially(d), steps) && s == Run(Initially(d), steps)
  }

  lemma {:induction false} ReachableInv(d: Disk, s: State)
    requires Sound(d) && Reachable(d, s)
    ensures Inv(d, s)
  {
    var steps :| Runs(Initially(d), steps) && s == Run(Initially(d), steps);
    assert forall n :: n in d.names && n.Plain? ==> Plain(n.path) == n;
    RunKeeps(d, Initially(d), steps);
  }

  // ── What every run promises ────────────────────────────────

  /** Whatever fails and whoever is killed, a file always exists and holds either its first bytes or all the
      bytes of the call that last renamed onto it; no other file appears and its permissions never change. */
  lemma {:induction false} AlwaysWhole(d: Disk, s: State, x: string)
    requires Sound(d) && Reachable(d, s)
    ensures Plain(x) in s.names <==> Plain(x) in d.names
    ensures Plain(x) in d.names ==>
      && Linked(s, Plain(x))
      && s.inodes[s.names[Plain(x)]].data == Expected(d, s.commits, x)
      && Permissions(s.inodes[s.names[Plain(x)]].mode) == Permissions(d.inodes[d.names[Plain(x)]].mode)
  {
    ReachableInv(d, s);
    if Plain(x) in d.names { LatestOk(d, s, s.commits, x); }
  }

  /** The renames that happened are those of distinct calls onto their own targets with their own bytes: every
      call that returned is among them once, and no call that threw is. */
  lemma {:induction false} CommitsAreCalls(d: Disk, s: State, c: nat)
    requires Sound(d) && Reachable(d, s) && c < |s.calls|
    ensures s.calls[c].phase.Returned? ==> exists k :: 0 <= k < |s.commits| && s.commits[k].call == c
    ensures s.calls[c].phase.Threw? ==> forall k :: 0 <= k < |s.commits| ==> s.commits[k].call != c
    ensures forall j, k :: 0 <= j < k < |s.commits| ==> s.commits[j].call != s.commits[k].call
    ensures forall k :: 0 <= k < |s.commits| && s.commits[k].call == c ==>
              s.commits[k].target == s.calls[c].target && s.commits[k].bytes == s.calls[c].bytes
  {
    ReachableInv(d, s);
    assert CallOk(d, s, c);
    assert forall k :: 0 <= k < |s.commits| && s.commits[k].call == c ==> CommitOk(s, k);
  }

  /** Only a rename that succeeds changes what a file name stands for, and the bytes of a file that has a
      name are never written to. */
  lemma {:induction false} OnlyRenameReplaces(d: Disk, s: State, step: Step, x: string)
    requires Sound(d) && Reachable(d, s) && Enabled(s, step) && Plain(x) in d.names
    ensures var t := Do(s, step);
      && Linked(s, Plain(x)) && Linked(t, Plain(x))
      && (t.names[Plain(x)] != s.names[Plain(x)] ==> step.Act? && step.action == Rename(true) && s.calls[step.c].target == x)
      && t.inodes[s.names[Plain(x)]] == s.inodes[s.names[Plain(x)]]
  {
    ReachableInv(d, s);
    InodePermissions(d, s, x);
    StepKeeps(d, s, step);
    InodePermissions(d, Do(s, step), x);
    if step.Act? {
      assert CallOk(d, s, step.c);
      NamedNotHeld(d, s, x, step.c);
      ActLeaves(s, step.c, step.action, x, s.names[Plain(x)]);
    }
  }

  /** What one step of a call does to a file name and to an inode that is not its working file. */
  lemma {:induction false} ActLeaves(s: State, c: nat, action: Action, x: string, i: nat)
    requires c < |s.calls| && CanAct(s, s.calls[c], action) && Plain(x) in s.names && i < |s.inodes|
    requires (action.Write? || action.Chown? || action.Chmod?) ==> s.calls[c].inode != i
    ensures var t := Acted(s, c, action);
      && i < |t.inodes| && t.inodes[i] == s.inodes[i] && Plain(x) in t.names
      && (t.names[Plain(x)] != s.names[Plain(x)] ==> action == Rename(true) && s.calls[c].target == x)
  {
  }

  /** The inode of a named file is nobody's working file. */
  lemma {:induction false} NamedNotHeld(d: Disk, s: State, x: string, c: nat)
    requires Sound(d) && Inv(d, s) && Plain(x) in d.names && c < |s.calls|
    ensures Holds(s.calls[c]) ==> s.calls[c].inode != s.names[Plain(x)]
  {
    if Holds(s.calls[c]) { LatestNotHeld(d, s, s.commits, x, c); }
  }

  lemma {:induction false} LatestNotHeld(d: Disk, s: State, commits: seq<Commit>, x: string, c: nat)
    requires Sound(d) && Inv(d, s) && commits <= s.commits && Plain(x) in d.names && c < |s.calls| && Holds(s.calls[c])
    ensures s.calls[c].inode != Latest(d, commits, x)
    decreases |commits|
  {
    assert CallOk(d, s, c);
    if commits == [] {
    } else if commits[|commits| - 1].target == x {
      var m := commits[|commits| - 1];
      assert CommitOk(s, |commits| - 1);
      assert CallOk(d, s, m.call);
      if s.calls[c].inode == m.inode { OwnInode(d, s, c, m.call); assert false; }
    } else {
      LatestNotHeld(d, s, commits[..|commits| - 1], x, c);
    }
  }

  /** The call ended without being killed, and no unlink of its failed. */
  predicate EndedCleanly(q: Call) {
    q.phase.Returned? || (q.phase.Threw? && (q.created ==> q.gone))
  }

  /** A working file belongs to one call, and that call is still at work, was killed or could not unlink it;
      a name that was there before is still there. */
  lemma {:induction false} WorkingFilesAreHeld(d: Disk, s: State, n: Name)
    requires Sound(d) && Reachable(d, s)
    ensures n in d.names ==> n in s.names
    ensures n in s.names && n !in d.names ==>
      exists c :: 0 <= c < |s.calls| && !EndedCleanly(s.calls[c]) && s.calls[c].created && PathOf(s.calls[c]) == n
  {
    ReachableInv(d, s);
    if n in s.names && n !in d.names {
      assert WorkingNameOk(d, s, n);
      var c := s.makers[s.names[n] - |d.inodes|];
      assert CallOk(d, s, c);
      assert !EndedCleanly(s.calls[c]) && PathOf(s.calls[c]) == n;
    }
  }

  /** When every call ended by returning or throwing, the folder holds exactly the names it held before. */
  lemma {:induction false} NothingLeftBehind(d: Disk, s: State)
    requires Sound(d) && Reachable(d, s) && forall c :: 0 <= c < |s.calls| ==> EndedCleanly(s.calls[c])
    ensures s.names.Keys == d.names.Keys
  {
    forall n ensures n in s.names <==> n in d.names { WorkingFilesAreHeld(d, s, n); }
  }

  /** A working file, while it is written and even when it is left behind, never grants a permission the
      file it replaces did not grant. */
  lemma {:induction false} NeverWider(d: Disk, s: State, c: nat)
    requires Sound(d) && Reachable(d, s) && c < |s.calls| && s.calls[c].created
    ensures var q := s.calls[c];
      && q.inode < |s.inodes| && Plain(q.target) in d.names
      && Permissions(s.inodes[q.inode].mode) <= Permissions(d.inodes[d.names[Plain(q.target)]].mode)
      && (q.committed ==> Permissions(s.inodes[q.inode].mode) == Permissions(d.inodes[d.names[Plain(q.target)]].mode))
      && (q.phase.Writing? ==> Permissions(s.inodes[q.inode].mode) == {})
  {
    ReachableInv(d, s);
    assert CallOk(d, s, c);
    ModeFacts(s.calls[c].mode);
  }

  /** A call that has not ended can always go on to its end by itself: some step other than a kill is possible. */
  lemma {:induction false} NeverStuck(d: Disk, s: State, c: nat)
    requires Sound(d) && Reachable(d, s) && c < |s.calls| && !Finished(s.calls[c].phase)
    ensures exists action: Action :: !action.Kill? && CanAct(s, s.calls[c], action)
  {
    ReachableInv(d, s);
    assert CallOk(d, s, c);
    var q := s.calls[c];
    var a := match q.phase
      case Begin => Refuse
      case Naming(attempt) => if attempt < MAX_NAME_ATTEMPTS then OpenFail else GiveUp
      case Writing(offset) => if offset < |q.bytes| then WriteFail else Chown(false)
      case Permitting => Chmod(true)
      case Flushing => Sync(true)
      case Closing => Close(true)
      case Renaming => Rename(true)
      case FlushingFolder => SyncFolder(true)
      case Unwinding => Unwind
      case _ => Unlink(true);
    assert CanAct(s, q, a);
  }
}

/**
 * How a child process gets its file descriptors: the table it inherits is remapped entry by
 * entry, and everything that is not a target is closed.
 */
module Descriptors {
  import opened Results

  datatype File = Inherited(id: nat) | OnDisk(path: string, forOutput: bool) | ReadEnd(pipe: nat) | WriteEnd(pipe: nat)

  type Fds = map<nat, File>

  datatype Source = Inherit | Redirect(to: nat) | UseFile(path: string) | UseHandle(handle: nat) | UsePipe(read: nat, write: nat)

  /** What a descriptor of the child is to be; `out` tells the two info maps apart. */
  datatype Entry = Entry(target: nat, source: Source, out: bool)

  // ---- the system calls, on values ----

  /** The lowest free descriptor from i on. */
  function LowestFree(fds: Fds, i: nat, limit: nat): (fd: Option<nat>)
    ensures fd.Some? ==> i <= fd.value < limit && fd.value !in fds && forall j :: i <= j < fd.value ==> j in fds
    ensures fd.None? ==> forall j :: i <= j < limit ==> j in fds
    decreases limit - i
  {
    if i >= limit then None else if i !in fds then Some(i) else LowestFree(fds, i + 1, limit)
  }

  function Remapped(fds: Fds, h: nat, d: nat): Fds
    requires h in fds
  {
    fds[d := fds[h]] - {h}
  }

  /** The end of a pipe that the child keeps. */
  function KeptEnd(e: Entry): nat
    requires e.source.UsePipe?
  {
    if e.out then e.source.write else e.source.read
  }

  function DroppedEnd(e: Entry): nat
    requires e.source.UsePipe?
  {
    if e.out then e.source.read else e.source.write
  }

  /** One entry of an info map; None where a system call fails. */
  function SetOne(fds: Fds, e: Entry, disk: set<string>, limit: nat): Option<Fds> {
    match e.source
    case Inherit => Some(fds)
    case Redirect(_) => Some(fds)
    case UseFile(path) =>
      var fd := LowestFree(fds, 0, limit);
      if path !in disk || fd.None? then None
      else
        var more := fds[fd.value := OnDisk(path, e.out)];
        Some(if fd.value == e.target then more else Remapped(more, fd.value, e.target))
    case UseHandle(h) =>
      if h == e.target then Some(fds) else if h in fds then Some(Remapped(fds, h, e.target)) else None
    case UsePipe(_, _) =>
      var rest := fds - {DroppedEnd(e)};
      if KeptEnd(e) == e.target then Some(rest)
      else if KeptEnd(e) in rest then Some(Remapped(rest, KeptEnd(e), e.target))
      else None
  }

  function SetUp(fds: Fds, es: seq<Entry>, disk: set<string>, limit: nat): Option<Fds>
    decreases es
  {
    if es == [] then Some(fds)
    else
      match SetOne(fds, es[0], disk, limit)
      case None => None
      case Some(next) => SetUp(next, es[1..], disk, limit)
  }

  function Redirected(fds: Fds, es: seq<Entry>): Option<Fds>
    decreases es
  {
    if es == [] then Some(fds)
    else if !es[0].source.Redirect? then Redirected(fds, es[1..])
    else if es[0].source.to in fds then Redirected(fds[es[0].target := fds[es[0].source.to]], es[1..])
    else None
  }

  function Targets(es: seq<Entry>): set<nat> {
    set e <- es :: e.target
  }

  /** The descriptors of the child when its program starts. */
  function Child(parent: Fds, ins: seq<Entry>, outs: seq<Entry>, disk: set<string>, limit: nat): Option<Fds> {
    match SetUp(parent, ins + outs, disk, limit)
    case None => None
    case Some(fds) =>
      match Redirected(fds, outs)
      case None => None
      case Some(all) => Some(map d | d in all && (d >= limit || d in Targets(ins + outs)) :: all[d])
  }

  // ---- the child's side of posix_start ----

  ghost predicate FitsFlags(es: seq<Entry>, out: bool, limit: nat) {
    forall i :: 0 <= i < |es| ==> es[i].target < limit && es[i].out == out && (!out ==> !es[i].source.Redirect?)
  }

  class Process {
    var fds: Fds
    const disk: set<string>
    /** maxdescs */
    const limit: nat

    constructor (fds: Fds, disk: set<string>, limit: nat)
      ensures this.fds == fds && this.disk == disk && this.limit == limit
    {
      this.fds, this.disk, this.limit := fds, disk, limit;
    }

    method Dup2(from: nat, to: nat) returns (ok: bool)
      modifies this
      ensures ok == (from in old(fds))
      ensures fds == if ok then old(fds)[to := old(fds)[from]] else old(fds)
    {
      ok := from in fds;
      if ok {
        fds := fds[to := fds[from]];
      }
    }

    method Close(fd: nat) returns (ok: bool)
      modifies this
      ensures ok == (fd in old(fds)) && fds == old(fds) - {fd}
    {
      ok := fd in fds;
      fds := fds - {fd};
    }

    method Open(path: string, forOutput: bool) returns (fd: Option<nat>)
      modifies this
      ensures fd == if path in disk then LowestFree(old(fds), 0, limit) else None
      ensures fds == if fd.Some? then old(fds)[fd.value := OnDisk(path, forOutput)] else old(fds)
    {
      fd := if path in disk then LowestFree(fds, 0, limit) else None;
      if fd.Some? {
        fds := fds[fd.value := OnDisk(path, forOutput)];
      }
    }

    /** file_handle::posix_remap */
    method PosixRemap(h: nat, d: nat) returns (ok: bool)
      modifies this
      ensures ok == (h in old(fds)) && fds == if ok then Remapped(old(fds), h, d) else old(fds)
    {
      ok := Dup2(h, d);
      if ok {
        ok := Close(h);
      }
    }

    method SetupOne(e: Entry) returns (ok: bool)
      modifies this
      ensures ok == SetOne(old(fds), e, disk, limit).Some?
      ensures ok ==> fds == SetOne(old(fds), e, disk, limit).value
    {
      ok := true;
      match e.source {
        case UseFile(path) =>
          var fd := Open(path, e.out);
          ok := fd.Some?;
          if ok && fd.value != e.target {
            ok := PosixRemap(fd.value, e.target);
          }
        case UseHandle(h) =>
          if h != e.target {
            ok := PosixRemap(h, e.target);
          }
        case UsePipe(_, _) =>
          var _ := Close(DroppedEnd(e));
          if KeptEnd(e) != e.target {
            ok := PosixRemap(KeptEnd(e), e.target);
          }
        case _ =>
      }
    }

    /** setup_input, and the first loop of setup_output. */
    method Setup(info: seq<Entry>, closeflags: array<bool>) returns (ok: bool)
      requires forall i :: 0 <= i < |info| ==> info[i].target < closeflags.Length
      modifies this, closeflags
      ensures ok == SetUp(old(fds), info, disk, limit).Some?
      ensures ok ==> fds == SetUp(old(fds), info, disk, limit).value
      ensures ok ==> forall d :: 0 <= d < closeflags.Length ==>
                closeflags[d] == (old(closeflags[d]) && d !in Targets(info))
    {
      hide SetOne;
      for i := 0 to |info|
        invariant SetUp(old(fds), info, disk, limit) == SetUp(fds, info[i..], disk, limit)
        invariant forall d :: 0 <= d < closeflags.Length ==>
                    closeflags[d] == (old(closeflags[d]) && d !in Targets(info[..i]))
      {
        MoreTargets(info, i);
        assert info[i..][1..] == info[i + 1..];
        closeflags[info[i].target] := false;
        ok := SetupOne(info[i]);
        if !ok {
          return;
        }
      }
      assert info[..|info|] == info;
      ok := true;
    }

    /** The second loop of setup_output. */
    method SetupRedirects(info: seq<Entry>) returns (ok: bool)
      modifies this
      ensures ok == Redirected(old(fds), info).Some?
      ensures ok ==> fds == Redirected(old(fds), info).value
    {
      for i := 0 to |info|
        invariant Redirected(old(fds), info) == Redirected(fds, info[i..])
      {
        assert info[i..][1..] == info[i + 1..];
        if info[i].source.Redirect? {
          ok := Dup2(info[i].source.to, info[i].target);
          if !ok {
            return;
          }
        }
      }
      ok := true;
    }

    /** The loop that closes what is still flagged. */
    method CloseFlagged(closeflags: array<bool>)
      modifies this
      ensures fds == map d | d in old(fds) && !(d < closeflags.Length && closeflags[d]) :: old(fds)[d]
    {
      for i := 0 to closeflags.Length
        invariant fds == map d | d in old(fds) && !(d < i && closeflags[d]) :: old(fds)[d]
      {
        if closeflags[i] {
          var _ := Close(i);
        }
      }
    }

    /** What the child does between fork and execve; false if an exception ends it. */
    method BecomeChild(infoin: seq<Entry>, infoout: seq<Entry>) returns (ok: bool)
      requires FitsFlags(infoin, false, limit) && FitsFlags(infoout, true, limit)
      modifies this
      ensures ok == Child(old(fds), infoin, infoout, disk, limit).Some?
      ensures ok ==> fds == Child(old(fds), infoin, infoout, disk, limit).value
    {
      hide SetUp, Redirected;
      var closeflags := new bool[limit](_ => true);
      SetUpInTurn(fds, infoin, infoout, disk, limit);
      ok := Setup(infoin, closeflags);
      if ok {
        ok := Setup(infoout, closeflags);
      }
      if ok {
        ok := SetupRedirects(infoout);
      }
      if ok {
        CloseFlagged(closeflags);
      }
    }
  }

  lemma MoreTargets(es: seq<Entry>, i: nat)
    requires i < |es|
    ensures Targets(es[..i + 1]) == Targets(es[..i]) + {es[i].target}
  {
    assert es[..i + 1] == es[..i] + [es[i]];
  }

  lemma {:induction false} SetUpInTurn(fds: Fds, a: seq<Entry>, b: seq<Entry>, disk: set<string>, limit: nat)
    ensures SetUp(fds, a + b, disk, limit) ==
            match SetUp(fds, a, disk, limit)
            case None => None
            case Some(next) => SetUp(next, b, disk, limit)
    decreases a
  {
    hide SetOne;
    if a == [] {
      assert a + b == b;
    } else {
      assert (a + b)[1..] == a[1..] + b;
      match SetOne(fds, a[0], disk, limit)
      case None =>
      case Some(next) => SetUpInTurn(next, a[1..], b, disk, limit);
    }
  }

  // ---- when the child gets what was meant for it ----

  /** The descriptors that an entry holds before it is set up. */
  function Held(e: Entry): set<nat> {
    match e.source
    case UseHandle(h) => {h}
    case UsePipe(r, w) => {r, w}
    case _ => {}
  }

  ghost predicate HeldBySome(es: seq<Entry>, d: nat) {
    exists i :: 0 <= i < |es| && d in Held(es[i])
  }

  /** An inherited stream that the parent has closed stays closed. */
  predicate Gone(orig: Fds, e: Entry) {
    e.source.Inherit? && e.target !in orig
  }

  /** The entry sets its target in the first loops, or relies on it. */
  predicate Claims(orig: Fds, e: Entry) {
    !e.source.Redirect? && !Gone(orig, e)
  }

  /** At the fork the parent's table `orig` has grown by what the entries hold. */
  ghost predicate Forked(orig: Fds, fds: Fds, es: seq<Entry>) {
    && (forall d :: d in orig ==> d in fds && fds[d] == orig[d])
    && (forall d :: d in fds ==> d in orig || HeldBySome(es, d))
  }

  /** What the entry uses is there. */
  predicate Ready(orig: Fds, fds: Fds, e: Entry) {
    match e.source
    case Inherit => e.target in orig ==> e.target in fds
    case UseHandle(h) => h in fds
    case UsePipe(r, w) => r in fds && w in fds && r != w
    case _ => true
  }

  ghost predicate AllReady(orig: Fds, fds: Fds, es: seq<Entry>) {
    forall i :: 0 <= i < |es| ==> Ready(orig, fds, es[i])
  }

  /** The file that the entry is to be. */
  function Intended(orig: Fds, fds: Fds, e: Entry): File
    requires Ready(orig, fds, e) && Claims(orig, e)
  {
    match e.source
    case Inherit => fds[e.target]
    case UseFile(path) => OnDisk(path, e.out)
    case UseHandle(h) => fds[h]
    case UsePipe(_, _) => fds[KeptEnd(e)]
  }

  /** Each target and each handle belongs to one entry. */
  ghost predicate Sane(es: seq<Entry>) {
    forall i, j :: 0 <= i < j < |es| ==> es[i].target != es[j].target && Held(es[i]) !! Held(es[j])
  }

  /** Set up in this order, the second entry loses the target of the first, or the first its target. */
  predicate Clash(orig: Fds, a: Entry, b: Entry) {
    (Claims(orig, a) && a.target in Held(b)) || (b.source.Inherit? && Claims(orig, b) && b.target in Held(a))
  }

  ghost predicate NoClash(orig: Fds, es: seq<Entry>) {
    forall i, j :: 0 <= i < j < |es| ==> !Clash(orig, es[i], es[j])
  }

  // One entry.

  /** Setting one entry up reaches its target, and leaves alone what others hold. */
  lemma OneSet(orig: Fds, fds: Fds, e: Entry, disk: set<string>, limit: nat)
    requires Ready(orig, fds, e) && SetOne(fds, e, disk, limit).Some?
    ensures var next := SetOne(fds, e, disk, limit).value;
            Claims(orig, e) ==> e.target in next && next[e.target] == Intended(orig, fds, e)
  {
  }

  lemma OneKeeps(fds: Fds, e: Entry, disk: set<string>, limit: nat, x: nat)
    requires SetOne(fds, e, disk, limit).Some? && x !in Held(e)
    requires x == e.target ==> e.source.Inherit? || e.source.Redirect?
    ensures var next := SetOne(fds, e, disk, limit).value;
            (x in next <==> x in fds) && (x in fds ==> next[x] == fds[x])
  {
  }

  lemma OneRemoves(fds: Fds, e: Entry, disk: set<string>, limit: nat, x: nat)
    requires SetOne(fds, e, disk, limit).Some? && x in Held(e) && x != e.target
    ensures x !in SetOne(fds, e, disk, limit).value
  {
  }

  // The loops.

  /** Another entry's loop leaves a descriptor as it is, open or not. */
  lemma {:induction false} SetUpFrame(fds: Fds, es: seq<Entry>, disk: set<string>, limit: nat, x: nat)
    requires SetUp(fds, es, disk, limit).Some?
    requires forall i :: 0 <= i < |es| ==> x !in Held(es[i])
    requires forall i :: 0 <= i < |es| && x == es[i].target ==> es[i].source.Inherit? || es[i].source.Redirect?
    ensures var t := SetUp(fds, es, disk, limit).value;
            (x in t <==> x in fds) && (x in fds ==> t[x] == fds[x])
    decreases es
  {
    hide SetOne, Held;
    if es != [] {
      OneKeeps(fds, es[0], disk, limit, x);
      SetUpFrame(SetOne(fds, es[0], disk, limit).value, es[1..], disk, limit, x);
    }
  }

  /** What an entry held and nobody sets afterwards is closed in the end. */
  lemma {:induction false} SetUpLoses(fds: Fds, es: seq<Entry>, disk: set<string>, limit: nat, m: nat, x: nat)
    requires SetUp(fds, es, disk, limit).Some? && Sane(es) && m < |es|
    requires x in Held(es[m]) && x != es[m].target
    requires forall k :: m < k < |es| && es[k].target == x ==> es[k].source.Inherit? || es[k].source.Redirect?
    ensures x !in SetUp(fds, es, disk, limit).value
    decreases es
  {
    hide SetOne, Held;
    var next, rest := SetOne(fds, es[0], disk, limit).value, es[1..];
    assert forall k :: 0 <= k < |rest| ==> rest[k] == es[k + 1];
    if m == 0 {
      OneRemoves(fds, es[0], disk, limit, x);
      assert forall k :: 0 <= k < |rest| ==> Held(es[0]) !! Held(rest[k]);
      SetUpFrame(next, rest, disk, limit, x);
    } else {
      SetUpLoses(next, rest, disk, limit, m - 1, x);
    }
  }

  /** Without a clash, setting up the first entry spoils no other. */
  lemma StaysReady(orig: Fds, fds: Fds, e: Entry, other: Entry, disk: set<string>, limit: nat)
    requires SetOne(fds, e, disk, limit).Some? && Ready(orig, fds, other) && !Clash(orig, e, other)
    requires e.target != other.target && Held(e) !! Held(other)
    ensures var next := SetOne(fds, e, disk, limit).value;
            Ready(orig, next, other) && (Claims(orig, other) ==> Intended(orig, next, other) == Intended(orig, fds, other))
  {
    forall x | x in Held(other)
      ensures var next := SetOne(fds, e, disk, limit).value; (x in fds ==> x in next && next[x] == fds[x])
    {
      OneKeeps(fds, e, disk, limit, x);
    }
    if other.source.Inherit? && Claims(orig, other) {
      OneKeeps(fds, e, disk, limit, other.target);
    }
  }

  lemma AllStayReady(orig: Fds, fds: Fds, es: seq<Entry>, disk: set<string>, limit: nat)
    requires es != [] && AllReady(orig, fds, es) && Sane(es) && NoClash(orig, es) && SetOne(fds, es[0], disk, limit).Some?
    ensures var next := SetOne(fds, es[0], disk, limit).value;
            && AllReady(orig, next, es[1..]) && Sane(es[1..]) && NoClash(orig, es[1..])
            && forall i :: 1 <= i < |es| && Claims(orig, es[i]) ==> Intended(orig, next, es[i]) == Intended(orig, fds, es[i])
  {
    hide SetOne, Held, Clash, Ready, Intended, Claims;
    var next := SetOne(fds, es[0], disk, limit).value;
    forall i | 1 <= i < |es|
      ensures Ready(orig, next, es[i])
      ensures Claims(orig, es[i]) ==> Intended(orig, next, es[i]) == Intended(orig, fds, es[i])
    {
      StaysReady(orig, fds, es[0], es[i], disk, limit);
    }
  }

  /** Without a clash each entry gets the file that was meant for it. */
  lemma {:induction false} SetUpReaches(orig: Fds, fds: Fds, es: seq<Entry>, disk: set<string>, limit: nat, k: nat)
    requires AllReady(orig, fds, es) && Sane(es) && NoClash(orig, es) && SetUp(fds, es, disk, limit).Some?
    requires k < |es| && Claims(orig, es[k])
    ensures var t := SetUp(fds, es, disk, limit).value;
            es[k].target in t && t[es[k].target] == Intended(orig, fds, es[k])
    decreases es
  {
    hide SetOne, Held, Ready, Intended;
    var next := SetOne(fds, es[0], disk, limit).value;
    OneSet(orig, fds, es[0], disk, limit);
    AllStayReady(orig, fds, es, disk, limit);
    if k == 0 {
      SetUpFrame(next, es[1..], disk, limit, es[0].target);
    } else {
      SetUpReaches(orig, next, es[1..], disk, limit, k - 1);
    }
  }

  /** Without a clash and without files to open, nothing fails. */
  lemma {:induction false} SetUpSucceeds(orig: Fds, fds: Fds, es: seq<Entry>, disk: set<string>, limit: nat)
    requires AllReady(orig, fds, es) && Sane(es) && NoClash(orig, es)
    requires forall i :: 0 <= i < |es| ==> !es[i].source.UseFile?
    ensures SetUp(fds, es, disk, limit).Some?
    decreases es
  {
    hide Clash;
    if es != [] {
      AllStayReady(orig, fds, es, disk, limit);
      SetUpSucceeds(orig, SetOne(fds, es[0], disk, limit).value, es[1..], disk, limit);
    }
  }

  /** A stream that was closed in the parent is closed in the end, even if a pipe took its place. */
  lemma StaysGone(orig: Fds, fds: Fds, es: seq<Entry>, disk: set<string>, limit: nat, k: nat)
    requires Forked(orig, fds, es) && Sane(es) && SetUp(fds, es, disk, limit).Some? && k < |es| && Gone(orig, es[k])
    ensures es[k].target !in SetUp(fds, es, disk, limit).value
  {
    hide SetUp, SetOne;
    var x := es[k].target;
    if HeldBySome(es, x) {
      var m :| 0 <= m < |es| && x in Held(es[m]);
      assert m != k;
      SetUpLoses(fds, es, disk, limit, m, x);
    } else {
      SetUpFrame(fds, es, disk, limit, x);
    }
  }

  /** The first loops reach every target exactly if there is no clash. */
  lemma SetUpExactly(orig: Fds, fds: Fds, es: seq<Entry>, disk: set<string>, limit: nat)
    requires AllReady(orig, fds, es) && Sane(es) && SetUp(fds, es, disk, limit).Some?
    ensures var t := SetUp(fds, es, disk, limit).value;
            NoClash(orig, es) <==>
              forall k :: 0 <= k < |es| && Claims(orig, es[k]) ==>
                es[k].target in t && t[es[k].target] == Intended(orig, fds, es[k])
  {
    hide SetUp, SetOne, Intended, Ready, Held;
    if NoClash(orig, es) {
      forall k | 0 <= k < |es| && Claims(orig, es[k])
        ensures var t := SetUp(fds, es, disk, limit).value;
                es[k].target in t && t[es[k].target] == Intended(orig, fds, es[k])
      {
        SetUpReaches(orig, fds, es, disk, limit, k);
      }
    } else {
      var i, j :| 0 <= i < j < |es| && Clash(orig, es[i], es[j]);
      if Claims(orig, es[i]) && es[i].target in Held(es[j]) {
        SetUpLoses(fds, es, disk, limit, j, es[i].target);
      } else {
        SetUpLoses(fds, es, disk, limit, i, es[j].target);
      }
    }
  }

  // The redirects, and the whole child.

  /** Open in the parent, and no entry's target. */
  ghost predicate Bystander(orig: Fds, es: seq<Entry>, d: nat) {
    d in orig && forall k :: 0 <= k < |es| ==> es[k].target != d
  }

  /** Every redirect of the list leads to the target of an entry that claims it, or to a bystander. */
  ghost predicate RedirectsEnd(orig: Fds, es: seq<Entry>) {
    forall i :: 0 <= i < |es| && es[i].source.Redirect? ==>
      Origin(orig, es, es[i].source.to) < |es| || Bystander(orig, es, es[i].source.to)
  }

  /** No entry holds a bystander that a redirect leads to. */
  ghost predicate Undisturbed(orig: Fds, es: seq<Entry>) {
    forall i :: 0 <= i < |es| && es[i].source.Redirect? && Bystander(orig, es, es[i].source.to) ==>
      !HeldBySome(es, es[i].source.to)
  }

  /** The entry that sets the descriptor up, or has it from the parent. */
  function Origin(orig: Fds, es: seq<Entry>, d: nat): (k: nat)
    ensures k <= |es| && (k < |es| ==> es[k].target == d && Claims(orig, es[k]))
  {
    if es == [] then 0
    else if es[0].target == d && Claims(orig, es[0]) then 0
    else Origin(orig, es[1..], d) + 1
  }

  lemma {:induction false} RedirectsReach(fds: Fds, es: seq<Entry>, x: nat)
    requires forall i, j :: 0 <= i < j < |es| ==> es[i].target != es[j].target
    requires forall i, j :: 0 <= i < |es| && 0 <= j < |es| && es[i].source.Redirect? && es[j].source.Redirect? ==>
               es[i].source.to != es[j].target
    ensures (forall i :: 0 <= i < |es| && es[i].source.Redirect? ==> es[i].source.to in fds) ==> Redirected(fds, es).Some?
    ensures Redirected(fds, es).Some? ==>
              var t := Redirected(fds, es).value;
              && (forall k :: 0 <= k < |es| && es[k].source.Redirect? && es[k].target == x ==>
                    es[k].source.to in fds && x in t && t[x] == fds[es[k].source.to])
              && ((forall k :: 0 <= k < |es| && es[k].source.Redirect? ==> es[k].target != x) ==>
                    (x in t <==> x in fds) && (x in t ==> t[x] == fds[x]))
    decreases es
  {
    if es != [] {
      var rest := es[1..];
      assert forall k :: 1 <= k < |es| ==> es[k] == rest[k - 1];
      if !es[0].source.Redirect? {
        RedirectsReach(fds, rest, x);
      } else if es[0].source.to in fds {
        RedirectsReach(fds[es[0].target := fds[es[0].source.to]], rest, x);
      }
    }
  }

  /** What the child is to have at the k-th entry's target. */
  ghost function Meant(orig: Fds, fds: Fds, es: seq<Entry>, k: nat): File
    requires AllReady(orig, fds, es) && RedirectsEnd(orig, es) && k < |es| && !Gone(orig, es[k])
  {
    if !es[k].source.Redirect? then Intended(orig, fds, es[k])
    else
      var o := Origin(orig, es, es[k].source.to);
      if o < |es| then Intended(orig, fds, es[o]) else orig[es[k].source.to]
  }

  /** The child has its targets and nothing else, each the file that was meant. */
  ghost predicate AsMeant(orig: Fds, fds: Fds, es: seq<Entry>, child: Fds)
    requires AllReady(orig, fds, es) && RedirectsEnd(orig, es)
  {
    && (forall d :: d in child ==> exists k :: 0 <= k < |es| && !Gone(orig, es[k]) && es[k].target == d)
    && (forall k :: 0 <= k < |es| && !Gone(orig, es[k]) ==>
          es[k].target in child && child[es[k].target] == Meant(orig, fds, es, k))
  }

  /** What a caller of the two set-up functions sees to. */
  ghost predicate Proper(orig: Fds, fds: Fds, ins: seq<Entry>, outs: seq<Entry>, limit: nat) {
    && Forked(orig, fds, ins + outs) && AllReady(orig, fds, ins + outs) && Sane(ins + outs)
    && RedirectsEnd(orig, ins + outs) && FitsFlags(ins, false, limit) && FitsFlags(outs, true, limit)
    && forall d :: d in fds ==> d < limit
  }

  /**
   * The child's table is what was meant exactly if no two entries clash in the order in which
   * they are set up.  A redirect to a bystander that an entry holds ends the child before, and
   * otherwise, without a clash, only a file that does not open does.
   */
  lemma ChildTable(orig: Fds, fds: Fds, ins: seq<Entry>, outs: seq<Entry>, disk: set<string>, limit: nat)
    requires Proper(orig, fds, ins, outs, limit)
    ensures var es, child := ins + outs, Child(fds, ins, outs, disk, limit);
            && (child.Some? ==> (AsMeant(orig, fds, es, child.value) <==> NoClash(orig, es)))
            && (child.Some? ==> Undisturbed(orig, es))
            && (NoClash(orig, es) && Undisturbed(orig, es) && (forall i :: 0 <= i < |es| ==> !es[i].source.UseFile?) ==>
                  child.Some?)
  {
    hide SetOne, SetUp, Redirected, Ready, Intended, Held, Clash, NoClash, Forked, Undisturbed;
    var es := ins + outs;
    if NoClash(orig, es) && forall i :: 0 <= i < |es| ==> !es[i].source.UseFile? {
      SetUpSucceeds(orig, fds, es, disk, limit);
    }
    if SetUp(fds, es, disk, limit).Some? {
      SetUpExactly(orig, fds, es, disk, limit);
      OriginsApart(orig, ins, outs);
      RedirectsReach(SetUp(fds, es, disk, limit).value, outs, 0);
      if NoClash(orig, es) && Undisturbed(orig, es) {
        OriginsThere(orig, fds, ins, outs, disk, limit);
      }
      if Redirected(SetUp(fds, es, disk, limit).value, outs).Some? {
        ChildIs(orig, fds, ins, outs, disk, limit);
        BystandersLeft(orig, fds, es, disk, limit);
        if NoClash(orig, es) {
          MeantIfReached(orig, fds, ins, outs, disk, limit);
        }
      }
    }
  }

  /** If what the redirects lead to is there behind the first loops, no entry held it. */
  lemma BystandersLeft(orig: Fds, fds: Fds, es: seq<Entry>, disk: set<string>, limit: nat)
    requires SetUp(fds, es, disk, limit).Some? && Sane(es)
    requires forall i :: 0 <= i < |es| && es[i].source.Redirect? ==> es[i].source.to in SetUp(fds, es, disk, limit).value
    ensures Undisturbed(orig, es)
  {
    hide SetUp, Held;
    forall i | 0 <= i < |es| && es[i].source.Redirect? && Bystander(orig, es, es[i].source.to)
      ensures !HeldBySome(es, es[i].source.to)
    {
      var x := es[i].source.to;
      if HeldBySome(es, x) {
        var m :| 0 <= m < |es| && x in Held(es[m]);
        SetUpLoses(fds, es, disk, limit, m, x);
      }
    }
  }

  /** A redirect to a descriptor that is neither set up nor open in the parent ends the child. */
  lemma RedirectNowhere(orig: Fds, fds: Fds, ins: seq<Entry>, outs: seq<Entry>, disk: set<string>, limit: nat, k: nat)
    requires Forked(orig, fds, ins + outs) && Sane(ins + outs) && k < |outs| && outs[k].source.Redirect?
    requires var d := outs[k].source.to; d !in orig && Origin(orig, ins + outs, d) == |ins + outs|
    requires forall j :: 0 <= j < |outs| && outs[j].source.Redirect? ==> outs[j].target != outs[k].source.to
    requires forall j :: 0 <= j < |ins| ==> !ins[j].source.Redirect?
    ensures Child(fds, ins, outs, disk, limit).None?
  {
    hide SetUp, SetOne, Redirected, Held;
    var es, x := ins + outs, outs[k].source.to;
    if SetUp(fds, es, disk, limit).Some? {
      forall j | 0 <= j < |es| && es[j].target == x
        ensures es[j].source.Inherit?
      {
        assert j >= |ins| ==> es[j] == outs[j - |ins|];
        NoOrigin(orig, es, x, j);
      }
      NeverOpen(orig, fds, es, disk, limit, x);
      RedirectFails(SetUp(fds, es, disk, limit).value, outs, k);
    }
  }

  lemma {:induction false} NoOrigin(orig: Fds, es: seq<Entry>, d: nat, j: nat)
    requires Origin(orig, es, d) == |es| && j < |es|
    ensures !(es[j].target == d && Claims(orig, es[j]))
  {
    if j > 0 {
      NoOrigin(orig, es[1..], d, j - 1);
    }
  }

  lemma NeverOpen(orig: Fds, fds: Fds, es: seq<Entry>, disk: set<string>, limit: nat, x: nat)
    requires Forked(orig, fds, es) && Sane(es) && SetUp(fds, es, disk, limit).Some? && x !in orig
    requires forall j :: 0 <= j < |es| && es[j].target == x ==> es[j].source.Inherit?
    ensures x !in SetUp(fds, es, disk, limit).value
  {
    hide SetUp, SetOne;
    if HeldBySome(es, x) {
      var m :| 0 <= m < |es| && x in Held(es[m]);
      SetUpLoses(fds, es, disk, limit, m, x);
    } else {
      SetUpFrame(fds, es, disk, limit, x);
    }
  }

  lemma {:induction false} RedirectFails(fds: Fds, es: seq<Entry>, k: nat)
    requires k < |es| && es[k].source.Redirect? && es[k].source.to !in fds
    requires forall j :: 0 <= j < |es| && es[j].source.Redirect? ==> es[j].target != es[k].source.to
    ensures Redirected(fds, es).None?
    decreases es
  {
    if k > 0 {
      var rest := es[1..];
      assert rest[k - 1] == es[k] && forall j :: 0 <= j < |rest| ==> rest[j] == es[j + 1];
      if !es[0].source.Redirect? {
        RedirectFails(fds, rest, k - 1);
      } else if es[0].source.to in fds {
        RedirectFails(fds[es[0].target := fds[es[0].source.to]], rest, k - 1);
      }
    }
  }

  /** No redirect leads to the target of a redirect. */
  lemma OriginsApart(orig: Fds, ins: seq<Entry>, outs: seq<Entry>)
    requires Sane(ins + outs) && RedirectsEnd(orig, ins + outs)
    ensures forall i, j :: 0 <= i < |outs| && 0 <= j < |outs| && outs[i].source.Redirect? && outs[j].source.Redirect? ==>
              outs[i].source.to != outs[j].target
    ensures forall i, j :: 0 <= i < j < |outs| ==> outs[i].target != outs[j].target
  {
    hide Held;
    var es := ins + outs;
    assert forall i :: 0 <= i < |outs| ==> outs[i] == es[|ins| + i];
    forall i, j | 0 <= i < |outs| && 0 <= j < |outs| && outs[i].source.Redirect? && outs[j].source.Redirect?
      ensures outs[i].source.to != outs[j].target
    {
      var o := Origin(orig, es, es[|ins| + i].source.to);
      assert o != |ins| + j && es[|ins| + j] == outs[j];
    }
    forall i, j | 0 <= i < j < |outs|
      ensures outs[i].target != outs[j].target
    {
      assert es[|ins| + i].target != es[|ins| + j].target;
    }
  }

  /** Without a clash the first loops leave what the second duplicates. */
  lemma OriginsThere(orig: Fds, fds: Fds, ins: seq<Entry>, outs: seq<Entry>, disk: set<string>, limit: nat)
    requires Proper(orig, fds, ins, outs, limit) && NoClash(orig, ins + outs) && SetUp(fds, ins + outs, disk, limit).Some?
    requires Undisturbed(orig, ins + outs)
    ensures var es, t := ins + outs, SetUp(fds, ins + outs, disk, limit).value;
            forall i :: 0 <= i < |outs| && outs[i].source.Redirect? ==>
              outs[i].source.to in t && t[outs[i].source.to] == Meant(orig, fds, es, |ins| + i)
  {
    hide SetOne, SetUp, Ready, Intended, Held, Clash, NoClash;
    var es := ins + outs;
    assert forall i :: 0 <= i < |outs| ==> outs[i] == es[|ins| + i];
    forall i | 0 <= i < |outs| && outs[i].source.Redirect?
      ensures var t := SetUp(fds, es, disk, limit).value;
              outs[i].source.to in t && t[outs[i].source.to] == Meant(orig, fds, es, |ins| + i)
    {
      var x := es[|ins| + i].source.to;
      var o := Origin(orig, es, x);
      if o < |es| {
        SetUpReaches(orig, fds, es, disk, limit, o);
      } else {
        BystanderStays(orig, fds, es, disk, limit, x);
      }
    }
  }

  lemma BystanderStays(orig: Fds, fds: Fds, es: seq<Entry>, disk: set<string>, limit: nat, x: nat)
    requires Forked(orig, fds, es) && Bystander(orig, es, x) && !HeldBySome(es, x) && SetUp(fds, es, disk, limit).Some?
    ensures var t := SetUp(fds, es, disk, limit).value; x in t && t[x] == orig[x]
  {
    hide SetUp, SetOne, Held;
    SetUpFrame(fds, es, disk, limit, x);
  }

  /** The child's table, descriptor by descriptor. */
  lemma ChildIs(orig: Fds, fds: Fds, ins: seq<Entry>, outs: seq<Entry>, disk: set<string>, limit: nat)
    requires Proper(orig, fds, ins, outs, limit) && Child(fds, ins, outs, disk, limit).Some?
    ensures var es, t, child := ins + outs, SetUp(fds, ins + outs, disk, limit).value, Child(fds, ins, outs, disk, limit).value;
            && (forall d :: d in child ==> d in Targets(es))
            && (forall k :: 0 <= k < |es| ==>
                  var x := es[k].target;
                  if es[k].source.Redirect? then es[k].source.to in t && x in child && child[x] == t[es[k].source.to]
                  else (x in child <==> x in t) && (x in t ==> child[x] == t[x]))
            && (forall k :: 0 <= k < |es| && Gone(orig, es[k]) ==> es[k].target !in child)
  {
    hide SetOne, SetUp, Redirected, Ready, Intended, Held;
    var es, t := ins + outs, SetUp(fds, ins + outs, disk, limit).value;
    OriginsApart(orig, ins, outs);
    Below(fds, es, disk, limit);
    RedirectedBelow(t, outs, limit);
    forall k | 0 <= k < |es|
      ensures var x, all := es[k].target, Redirected(t, outs).value;
              if es[k].source.Redirect? then es[k].source.to in t && x in all && all[x] == t[es[k].source.to]
              else (x in all <==> x in t) && (x in t ==> all[x] == t[x])
      ensures Gone(orig, es[k]) ==> es[k].target !in t
    {
      EntryRedirected(ins, outs, t, k);
      if Gone(orig, es[k]) {
        StaysGone(orig, fds, es, disk, limit, k);
      }
    }
  }

  lemma EntryRedirected(ins: seq<Entry>, outs: seq<Entry>, t: Fds, k: nat)
    requires Sane(ins + outs) && Redirected(t, outs).Some? && k < |ins + outs|
    requires forall i :: 0 <= i < |ins| ==> !ins[i].source.Redirect?
    requires forall i, j :: 0 <= i < |outs| && 0 <= j < |outs| && outs[i].source.Redirect? && outs[j].source.Redirect? ==>
               outs[i].source.to != outs[j].target
    requires forall i, j :: 0 <= i < j < |outs| ==> outs[i].target != outs[j].target
    ensures var es, x, all := ins + outs, (ins + outs)[k].target, Redirected(t, outs).value;
            if es[k].source.Redirect? then es[k].source.to in t && x in all && all[x] == t[es[k].source.to]
            else (x in all <==> x in t) && (x in t ==> all[x] == t[x])
  {
    hide Redirected, Held;
    var es := ins + outs;
    RedirectsReach(t, outs, es[k].target);
    if es[k].source.Redirect? {
      assert es[k] == outs[k - |ins|];
    } else {
      forall j | 0 <= j < |outs| && outs[j].source.Redirect?
        ensures outs[j].target != es[k].target
      {
        assert outs[j] == es[|ins| + j];
        assert k != |ins| + j;
      }
    }
  }

  lemma MeantIfReached(orig: Fds, fds: Fds, ins: seq<Entry>, outs: seq<Entry>, disk: set<string>, limit: nat)
    requires Proper(orig, fds, ins, outs, limit) && Child(fds, ins, outs, disk, limit).Some? && NoClash(orig, ins + outs)
    requires Undisturbed(orig, ins + outs)
    ensures AsMeant(orig, fds, ins + outs, Child(fds, ins, outs, disk, limit).value)
  {
    hide SetOne, SetUp, Redirected, Ready, Intended, Held, Clash, NoClash, Child, Undisturbed;
    var es, child := ins + outs, Child(fds, ins, outs, disk, limit).value;
    assert SetUp(fds, es, disk, limit).Some? by {
      ChildStages(fds, ins, outs, disk, limit);
    }
    ChildIs(orig, fds, ins, outs, disk, limit);
    OriginsThere(orig, fds, ins, outs, disk, limit);
    SetUpExactly(orig, fds, es, disk, limit);
    forall k | 0 <= k < |es| && !Gone(orig, es[k])
      ensures es[k].target in child && child[es[k].target] == Meant(orig, fds, es, k)
    {
      if es[k].source.Redirect? {
        assert es[k] == outs[k - |ins|];
      }
    }
    forall d | d in child
      ensures exists k :: 0 <= k < |es| && !Gone(orig, es[k]) && es[k].target == d
    {
      var k :| 0 <= k < |es| && es[k].target == d;
      assert !Gone(orig, es[k]);
    }
  }

  lemma ChildStages(fds: Fds, ins: seq<Entry>, outs: seq<Entry>, disk: set<string>, limit: nat)
    requires Child(fds, ins, outs, disk, limit).Some?
    ensures SetUp(fds, ins + outs, disk, limit).Some?
    ensures Redirected(SetUp(fds, ins + outs, disk, limit).value, outs).Some?
  {
  }

  lemma {:induction false} Below(fds: Fds, es: seq<Entry>, disk: set<string>, limit: nat)
    requires (forall d :: d in fds ==> d < limit) && forall i :: 0 <= i < |es| ==> es[i].target < limit
    ensures SetUp(fds, es, disk, limit).Some? ==> forall d :: d in SetUp(fds, es, disk, limit).value ==> d < limit
    decreases es
  {
    if es != [] && SetOne(fds, es[0], disk, limit).Some? {
      Below(SetOne(fds, es[0], disk, limit).value, es[1..], disk, limit);
    }
  }

  lemma {:induction false} RedirectedBelow(fds: Fds, es: seq<Entry>, limit: nat)
    requires (forall d :: d in fds ==> d < limit) && forall i :: 0 <= i < |es| ==> es[i].target < limit
    ensures Redirected(fds, es).Some? ==> forall d :: d in Redirected(fds, es).value ==> d < limit
    decreases es
  {
    if es != [] {
      if es[0].source.Redirect? && es[0].source.to in fds {
        RedirectedBelow(fds[es[0].target := fds[es[0].source.to]], es[1..], limit);
      } else if !es[0].source.Redirect? {
        RedirectedBelow(fds, es[1..], limit);
      }
    }
  }

  /**
   * Entries do clash: with two captured outputs, 5 and 6, in a parent that has 0 to 2 open, the
   * second pipe is 5 and 6, and closing its read end loses the first.
   */
  lemma CapturesClash(a: File, b: File, c: File, limit: nat)
    requires limit > 6
    ensures var all := map[0 := a, 1 := b, 2 := c, 3 := ReadEnd(0), 4 := WriteEnd(0), 5 := ReadEnd(1), 6 := WriteEnd(1)];
            var outs := [Entry(5, UsePipe(3, 4), true), Entry(6, UsePipe(5, 6), true)];
            Child(all, [], outs, {}, limit) == Some(map[6 := WriteEnd(1)])
  {
    var all := map[0 := a, 1 := b, 2 := c, 3 := ReadEnd(0), 4 := WriteEnd(0), 5 := ReadEnd(1), 6 := WriteEnd(1)];
    var outs := [Entry(5, UsePipe(3, 4), true), Entry(6, UsePipe(5, 6), true)];
    var fds1 := map[0 := a, 1 := b, 2 := c, 5 := WriteEnd(0), 6 := WriteEnd(1)];
    var fds2 := map[0 := a, 1 := b, 2 := c, 6 := WriteEnd(1)];
    FirstPipeSet(a, b, c, limit);
    FirstPipeLost(a, b, c, limit);
    SetUpTwo(all, outs[0], outs[1], {}, limit, fds1, fds2);
    assert [] + outs == outs && outs[0].target == 5 && outs[1].target == 6;
    var targets := Targets(outs);
    assert targets == {5, 6};
    assert (map d | d in fds2 && (d >= limit || d in targets) :: fds2[d]) == map[6 := WriteEnd(1)];
  }

  lemma FirstPipeSet(a: File, b: File, c: File, limit: nat)
    ensures var all := map[0 := a, 1 := b, 2 := c, 3 := ReadEnd(0), 4 := WriteEnd(0), 5 := ReadEnd(1), 6 := WriteEnd(1)];
            SetOne(all, Entry(5, UsePipe(3, 4), true), {}, limit) ==
            Some(map[0 := a, 1 := b, 2 := c, 5 := WriteEnd(0), 6 := WriteEnd(1)])
  {
    var all := map[0 := a, 1 := b, 2 := c, 3 := ReadEnd(0), 4 := WriteEnd(0), 5 := ReadEnd(1), 6 := WriteEnd(1)];
    assert (all - {3})[5 := WriteEnd(0)] - {4} == map[0 := a, 1 := b, 2 := c, 5 := WriteEnd(0), 6 := WriteEnd(1)];
  }

  lemma FirstPipeLost(a: File, b: File, c: File, limit: nat)
    ensures var fds := map[0 := a, 1 := b, 2 := c, 5 := WriteEnd(0), 6 := WriteEnd(1)];
            SetOne(fds, Entry(6, UsePipe(5, 6), true), {}, limit) == Some(map[0 := a, 1 := b, 2 := c, 6 := WriteEnd(1)])
  {
    var fds := map[0 := a, 1 := b, 2 := c, 5 := WriteEnd(0), 6 := WriteEnd(1)];
    assert fds - {5} == map[0 := a, 1 := b, 2 := c, 6 := WriteEnd(1)];
  }

  lemma SetUpTwo(fds: Fds, e: Entry, e': Entry, disk: set<string>, limit: nat, fds1: Fds, fds2: Fds)
    requires SetOne(fds, e, disk, limit) == Some(fds1) && SetOne(fds1, e', disk, limit) == Some(fds2)
    requires !e.source.Redirect? && !e'.source.Redirect?
    ensures SetUp(fds, [e, e'], disk, limit) == Some(fds2) && Redirected(fds2, [e, e']) == Some(fds2)
  {
    hide SetOne;
    assert [e, e'][1..] == [e'] && [e'][1..] == [];
    assert SetUp(fds1, [e'], disk, limit) == Some(fds2) && Redirected(fds2, [e']) == Some(fds2);
  }
}

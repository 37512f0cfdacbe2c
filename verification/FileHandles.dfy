/**
 * Handles that own file descriptors: copying moves the descriptor, so that every descriptor has
 * one owner, which closes it.
 */
module FileHandles {
  import opened Results

  /** The descriptors of the valid handles, and all that are open. */
  datatype World<H> = World(owner: map<H, nat>, open: set<nat>)

  datatype Op<H> =
    | Own(h: H, fd: nat)
    | Copy(to: H, from: H)
    | Assign(to: H, from: H)
    | Release(h: H)
    | Close(h: H)
    | Destroy(h: H)
    | Remap(h: H, fd: nat)

  /** A descriptor moves from one handle to another; the other's own is forgotten. */
  function Moved<H(==)>(owner: map<H, nat>, to: H, from: H): map<H, nat> {
    if from !in owner then owner - {to}
    else owner[to := owner[from]] - {from}
  }

  function Step<H(==)>(w: World<H>, op: Op<H>): World<H> {
    match op
    case Own(h, fd) => w.(owner := w.owner[h := fd])
    case Copy(to, from) => w.(owner := Moved(w.owner, to, from))
    case Assign(to, from) => w.(owner := Moved(w.owner, to, from))
    case Release(h) => w.(owner := w.owner - {h})
    case Close(h) => if h in w.owner then World(w.owner - {h}, w.open - {w.owner[h]}) else w
    case Destroy(h) => if h in w.owner then World(w.owner - {h}, w.open - {w.owner[h]}) else w
    case Remap(h, fd) =>
      if h in w.owner && w.owner[h] in w.open then
        World(w.owner[h := fd], (w.open + {fd}) - {w.owner[h]})
      else w
  }

  /** Every owned descriptor is open and has one owner. */
  ghost predicate Owned<H>(w: World<H>) {
    && (forall h :: h in w.owner ==> w.owner[h] in w.open)
    && (forall g, h :: g in w.owner && h in w.owner && g != h ==> w.owner[g] != w.owner[h])
  }

  /** What the operations ask of their callers: valid handles, and new ones where one is made. */
  predicate Called<H(==)>(w: World<H>, op: Op<H>) {
    match op
    case Own(h, _) => h !in w.owner
    case Copy(to, from) => to !in w.owner && to != from
    case Assign(_, _) => true
    case Release(h) => h in w.owner
    case Close(h) => h in w.owner
    case Destroy(h) => true
    case Remap(h, _) => h in w.owner
  }

  /** The operation takes a descriptor that is its to take. */
  predicate Fair<H(==)>(w: World<H>, op: Op<H>) {
    match op
    case Own(_, fd) => fd in w.open && fd !in w.owner.Values
    case Remap(h, fd) => fd !in w.owner.Values
    case _ => true
  }

  /**
   * One owner each is kept exactly by the operations that take no descriptor of a handle: a
   * handle remapped to its own descriptor closes what it goes on to own.
   */
  lemma OwnedExactly<H>(w: World<H>, op: Op<H>)
    requires Owned(w) && Called(w, op)
    ensures Owned(Step(w, op)) <==> Fair(w, op)
  {
    match op
    case Own(h, fd) =>
      var w' := Step(w, op);
      assert w'.owner[h] == fd;
      if fd in w.owner.Values {
        var g :| g in w.owner && w.owner[g] == fd;
        assert w'.owner[g] == fd;
      }
    case Remap(h, fd) =>
      var w' := Step(w, op);
      assert w'.owner[h] == fd;
      if fd in w.owner.Values {
        var g :| g in w.owner && w.owner[g] == fd;
        assert g in w'.owner;
      }
    case _ =>
  }

  function Run<H(==)>(w: World<H>, ops: seq<Op<H>>): World<H>
    decreases ops
  {
    if ops == [] then w else Run(Step(w, ops[0]), ops[1..])
  }

  ghost predicate FairRun<H>(w: World<H>, ops: seq<Op<H>>)
    decreases ops
  {
    ops == [] || (Called(w, ops[0]) && Fair(w, ops[0]) && FairRun(Step(w, ops[0]), ops[1..]))
  }

  /** Over every run of such operations each owned descriptor is open and has one owner. */
  lemma {:induction false} EveryRunOwned<H>(w: World<H>, ops: seq<Op<H>>)
    requires Owned(w) && FairRun(w, ops)
    ensures Owned(Run(w, ops))
    decreases ops
  {
    if ops != [] {
      OwnedExactly(w, ops[0]);
      EveryRunOwned(Step(w, ops[0]), ops[1..]);
    }
  }

  /** The open descriptors that no handle will close. */
  function Unowned<H>(w: World<H>): set<nat> {
    w.open - w.owner.Values
  }

  /** What the operation leaves without an owner, or takes from the unowned. */
  function Lost<H(==)>(w: World<H>, op: Op<H>): set<nat> {
    match op
    case Assign(to, _) => if to in w.owner then {w.owner[to]} else {}
    case Release(h) => if h in w.owner then {w.owner[h]} else {}
    case _ => {}
  }

  /**
   * A descriptor goes without owner exactly by a release, or by an assignment to a valid handle
   * (to itself, too); and gets one only when a handle is made or remapped.
   */
  lemma LostExactly<H>(w: World<H>, op: Op<H>)
    requires Owned(w) && Called(w, op) && Fair(w, op)
    ensures Unowned(Step(w, op)) == Unowned(w) + Lost(w, op) - (if op.Own? || op.Remap? then {op.fd} else {})
  {
    var w' := Step(w, op);
    forall d
      ensures d in Unowned(w') <==> d in Unowned(w) + Lost(w, op) - (if op.Own? || op.Remap? then {op.fd} else {})
    {
      OwnersAfter(w, op, d);
    }
  }

  lemma OwnersAfter<H>(w: World<H>, op: Op<H>, d: nat)
    requires Owned(w) && Called(w, op) && Fair(w, op)
    ensures d in Step(w, op).owner.Values <==>
              if (op.Own? || op.Remap?) && d == op.fd then true
              else d in w.owner.Values && !Drops(w, op, d)
  {
    var w' := Step(w, op);
    if d in w.owner.Values {
      var g :| g in w.owner && w.owner[g] == d;
      var g' := if (op.Copy? || op.Assign?) && op.from == g then op.to else g;
      assert !Drops(w, op, d) ==> g' in w'.owner && w'.owner[g'] == d;
    }
    if (op.Own? || op.Remap?) && d == op.fd {
      assert w'.owner[op.h] == d;
    }
  }

  /** The operation takes the descriptor from the handle that owns it. */
  predicate Drops<H(==)>(w: World<H>, op: Op<H>, d: nat) {
    match op
    case Assign(to, _) => to in w.owner && w.owner[to] == d
    case Release(h) => h in w.owner && w.owner[h] == d
    case Close(h) => h in w.owner && w.owner[h] == d
    case Destroy(h) => h in w.owner && w.owner[h] == d
    case Remap(h, _) => h in w.owner && w.owner[h] == d
    case _ => false
  }

  /** Copying and assigning hand the source's descriptor over, and touch no third handle. */
  lemma HandedOver<H>(w: World<H>, to: H, from: H, other: H)
    requires to != from && other != to && other != from
    ensures forall op :: op == Copy(to, from) || op == Assign(to, from) ==>
              var w' := Step(w, op);
              && from !in w'.owner && w'.open == w.open
              && (to in w'.owner <==> from in w.owner) && (from in w.owner ==> w'.owner[to] == w.owner[from])
              && (other in w'.owner <==> other in w.owner) && (other in w.owner ==> w'.owner[other] == w.owner[other])
  {
  }

  // ---- the handles as objects ----

  class Kernel {
    var open: set<nat>
  }

  /** The world that some handles make up. */
  ghost function View(hs: set<FileHandle>, k: Kernel): World<FileHandle>
    reads hs, k
  {
    World(map h | h in hs && h.handle.Some? :: h.handle.value, k.open)
  }

  class FileHandle {
    var handle: Option<nat>

    /** An invalid handle. */
    constructor ()
      ensures handle == None
    {
      handle := None;
    }

    constructor FromNative(h: nat)
      ensures handle == Some(h)
    {
      handle := Some(h);
    }

    /** The copy constructor invalidates its source. */
    constructor FromHandle(fh: FileHandle)
      modifies fh
      ensures handle == old(fh.handle) && fh.handle == None
    {
      handle := fh.handle;
      new;
      fh.handle := None;
    }

    method AssignFrom(fh: FileHandle, k: Kernel, ghost hs: set<FileHandle>)
      requires this in hs && fh in hs
      modifies this, fh
      ensures fh.handle == None && (this != fh ==> handle == old(fh.handle))
      ensures View(hs, k) == Step(old(View(hs, k)), Assign(this, fh))
    {
      handle := fh.handle;
      fh.handle := None;
    }

    method CloseIt(k: Kernel, ghost hs: set<FileHandle>)
      requires this in hs && handle.Some?
      modifies this, k
      ensures handle == None && k.open == old(k.open) - {old(handle).value}
      ensures View(hs, k) == Step(old(View(hs, k)), Close(this))
    {
      k.open := k.open - {handle.value};
      handle := None;
    }

    /** The destructor. */
    method Destruct(k: Kernel, ghost hs: set<FileHandle>)
      requires this in hs
      modifies this, k
      ensures handle == None && k.open == old(k.open) - (if old(handle).Some? then {old(handle).value} else {})
      ensures View(hs, k) == Step(old(View(hs, k)), Destroy(this))
    {
      if handle.Some? {
        CloseIt(k, hs);
      }
    }

    method ReleaseIt(k: Kernel, ghost hs: set<FileHandle>) returns (h: nat)
      requires this in hs && handle.Some?
      modifies this
      ensures handle == None
      ensures h == old(handle).value && View(hs, k) == Step(old(View(hs, k)), Release(this))
    {
      h := handle.value;
      handle := None;
    }

    /** dup2 and close; false where an exception is thrown. */
    method PosixRemap(h: nat, k: Kernel, ghost hs: set<FileHandle>) returns (ok: bool)
      requires this in hs && handle.Some?
      modifies this, k
      ensures ok == (old(handle).value in old(k.open))
      ensures if ok then handle == Some(h) && k.open == old(k.open) + {h} - {old(handle).value}
              else handle == old(handle) && k.open == old(k.open)
      ensures View(hs, k) == Step(old(View(hs, k)), Remap(this, h))
    {
      ok := handle.value in k.open;
      if ok {
        k.open := k.open + {h};
        k.open := k.open - {handle.value};
        handle := Some(h);
      }
    }
  }
}

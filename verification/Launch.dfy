/**
 * Launching a child: pipes are made for the captured streams, the child sets its descriptors
 * up, and the parent keeps one end of each pipe, each in one stream.
 */
module Launch {
  import opened Descriptors
  import opened Results

  datatype Behavior = Capture | Close | InheritStream | RedirectToStdout | Silence | PosixRedirect(to: nat)

  type Behaviors = seq<(nat, Behavior)>

  // ---- the info maps ----

  /** pipe(2): the two lowest free descriptors. */
  function Piped(fds: Fds, limit: nat, id: nat): Option<(Fds, nat, nat)> {
    match LowestFree(fds, 0, limit)
    case None => None
    case Some(r) =>
      var more := fds[r := ReadEnd(id)];
      match LowestFree(more, 0, limit)
      case None => None
      case Some(w) => Some((more[w := WriteEnd(id)], r, w))
  }

  /** The source of a stream that needs no pipe. */
  function Plain(b: Behavior, out: bool): Source
    requires !b.Capture? && !b.Close?
  {
    match b
    case InheritStream => Inherit
    case RedirectToStdout => Redirect(1)
    case Silence => UseFile(if out then "/dev/null" else "/dev/zero")
    case PosixRedirect(to) => Redirect(to)
  }

  /** The entries for the streams that are not closed, with pipes numbered from `next` on. */
  function Infos(fds: Fds, bs: Behaviors, out: bool, limit: nat, next: nat): Option<(Fds, seq<Entry>)>
    decreases bs
  {
    if bs == [] then Some((fds, []))
    else
      var (d, b) := bs[0];
      if b.Close? then Infos(fds, bs[1..], out, limit, next)
      else if b.Capture? then
        match Piped(fds, limit, next)
        case None => None
        case Some((more, r, w)) => Before(Entry(d, UsePipe(r, w), out), Infos(more, bs[1..], out, limit, next + 1))
      else Before(Entry(d, Plain(b, out), out), Infos(fds, bs[1..], out, limit, next))
  }

  function Before(e: Entry, o: Option<(Fds, seq<Entry>)>): Option<(Fds, seq<Entry>)> {
    match o
    case None => None
    case Some((fds, es)) => Some((fds, [e] + es))
  }

  /** Both info maps, the inputs first. */
  function BothInfos(fds: Fds, ins: Behaviors, outs: Behaviors, limit: nat, next: nat): Option<(Fds, seq<Entry>, seq<Entry>)> {
    match Infos(fds, ins, false, limit, next)
    case None => None
    case Some((more, infoin)) =>
      match Infos(more, outs, true, limit, next + |ins|)
      case None => None
      case Some((all, infoout)) => Some((all, infoin, infoout))
  }

  function Open(bs: Behaviors): Behaviors {
    if bs == [] then [] else (if bs[0].1.Close? then [] else [bs[0]]) + Open(bs[1..])
  }

  /** The entry of a stream. */
  predicate EntryOf(e: Entry, s: (nat, Behavior), out: bool) {
    && e.target == s.0 && e.out == out && !s.1.Close?
    && (if s.1.Capture? then e.source.UsePipe? else e.source == Plain(s.1, out))
  }

  /** New pipes lie outside the old table and apart from each other. */
  ghost predicate Fresh(old': Fds, fds: Fds, es: seq<Entry>) {
    Outside(old', fds, es) && Covered(old', fds, es)
  }

  ghost predicate Outside(old': Fds, fds: Fds, es: seq<Entry>) {
    && (forall d :: d in old' ==> d in fds && fds[d] == old'[d])
    && (forall i :: 0 <= i < |es| ==> Held(es[i]) !! old'.Keys && !es[i].source.UseHandle? && (es[i].source.UsePipe? ==>
          var UsePipe(r, w) := es[i].source;
          r != w && r in fds && w in fds && fds[r].ReadEnd? && fds[w] == WriteEnd(fds[r].pipe)))
    && (forall i, j :: 0 <= i < j < |es| ==> Held(es[i]) !! Held(es[j]))
  }

  /** What is new belongs to the entries. */
  ghost predicate Covered(old': Fds, fds: Fds, es: seq<Entry>) {
    forall d :: d in fds ==> d in old' || HeldBySome(es, d)
  }

  lemma {:induction false} InfosFresh(fds: Fds, bs: Behaviors, out: bool, limit: nat, next: nat)
    requires Infos(fds, bs, out, limit, next).Some? && forall d :: d in fds ==> d < limit
    ensures var (all, es) := Infos(fds, bs, out, limit, next).value;
            Fresh(fds, all, es) && forall d :: d in all ==> d < limit
    decreases bs
  {
    hide LowestFree, Piped, Fresh;
    if bs == [] {
      FreshNone(fds);
    } else {
      var (d, b) := bs[0];
      if b.Close? {
        InfosFresh(fds, bs[1..], out, limit, next);
      } else if b.Capture? {
        var (more, r, w) := Piped(fds, limit, next).value;
        PipedIs(fds, limit, next);
        InfosFresh(more, bs[1..], out, limit, next + 1);
        var (all, es) := Infos(more, bs[1..], out, limit, next + 1).value;
        FreshPipe(fds, more, all, Entry(d, UsePipe(r, w), out), es, next);
      } else {
        InfosFresh(fds, bs[1..], out, limit, next);
        var (all, es) := Infos(fds, bs[1..], out, limit, next).value;
        FreshPlain(fds, all, Entry(d, Plain(b, out), out), es);
      }
    }
  }

  /** The entries are those of the streams that are not closed, in their order. */
  lemma {:induction false} InfosEntries(fds: Fds, bs: Behaviors, out: bool, limit: nat, next: nat)
    requires Infos(fds, bs, out, limit, next).Some?
    ensures EntriesOf(Infos(fds, bs, out, limit, next).value.1, Open(bs), out)
    decreases bs
  {
    hide Piped, EntryOf, EntriesOf;
    if bs == [] {
      EntriesNone(out);
    } else {
      var (d, b) := bs[0];
      if b.Close? {
        InfosEntries(fds, bs[1..], out, limit, next);
        assert [] + Open(bs[1..]) == Open(bs[1..]);
      } else if b.Capture? {
        var (more, r, w) := Piped(fds, limit, next).value;
        InfosEntries(more, bs[1..], out, limit, next + 1);
        EntriesMore(Entry(d, UsePipe(r, w), out), Infos(more, bs[1..], out, limit, next + 1).value.1, bs[0], Open(bs[1..]), out);
      } else {
        InfosEntries(fds, bs[1..], out, limit, next);
        EntriesMore(Entry(d, Plain(b, out), out), Infos(fds, bs[1..], out, limit, next).value.1, bs[0], Open(bs[1..]), out);
      }
    }
  }

  ghost predicate EntriesOf(es: seq<Entry>, ss: Behaviors, out: bool) {
    |es| == |ss| && forall i :: 0 <= i < |es| ==> EntryOf(es[i], ss[i], out)
  }

  lemma EntriesNone(out: bool)
    ensures EntriesOf([], [], out)
  {
  }

  lemma EntriesMore(e: Entry, es: seq<Entry>, s: (nat, Behavior), ss: Behaviors, out: bool)
    requires EntriesOf(es, ss, out) && e.target == s.0 && e.out == out && !s.1.Close?
    requires if s.1.Capture? then e.source.UsePipe? else e.source == Plain(s.1, out)
    ensures EntriesOf([e] + es, [s] + ss, out)
  {
  }

  lemma FreshNone(fds: Fds)
    ensures Fresh(fds, fds, [])
  {
  }

  lemma PipedIs(fds: Fds, limit: nat, id: nat)
    requires Piped(fds, limit, id).Some? && forall d :: d in fds ==> d < limit
    ensures var (more, r, w) := Piped(fds, limit, id).value;
            && more == fds[r := ReadEnd(id)][w := WriteEnd(id)] && r != w && r !in fds && w !in fds
            && forall d :: d in more ==> d < limit
  {
  }

  lemma FreshPlain(fds: Fds, all: Fds, e: Entry, es: seq<Entry>)
    requires Fresh(fds, all, es) && Held(e) == {}
    ensures Fresh(fds, all, [e] + es)
  {
    hide HeldBySome, Held;
    assert !e.source.UseHandle? && !e.source.UsePipe? by {
      HeldNone(e);
    }
    SomeMore(e, es);
  }

  lemma HeldNone(e: Entry)
    ensures e.source.UseHandle? || e.source.UsePipe? ==> Held(e) != {}
  {
    if e.source.UsePipe? {
      assert e.source.read in Held(e);
    } else if e.source.UseHandle? {
      assert e.source.handle in Held(e);
    }
  }

  lemma FreshPipe(fds: Fds, more: Fds, all: Fds, e: Entry, es: seq<Entry>, id: nat)
    requires e.source.UsePipe? && Fresh(more, all, es)
    requires var UsePipe(r, w) := e.source;
             r != w && r !in fds && w !in fds && more == fds[r := ReadEnd(id)][w := WriteEnd(id)]
    ensures Fresh(fds, all, [e] + es)
  {
    hide Covered, Outside;
    PipeOutside(fds, more, all, e, es, id);
    PipeCovered(fds, more, all, e, es);
  }

  lemma PipeCovered(fds: Fds, more: Fds, all: Fds, e: Entry, es: seq<Entry>)
    requires Covered(more, all, es) && forall d :: d in more ==> d in fds || d in Held(e)
    ensures Covered(fds, all, [e] + es)
  {
    hide HeldBySome, Held;
    SomeMore(e, es);
  }

  lemma PipeOutside(fds: Fds, more: Fds, all: Fds, e: Entry, es: seq<Entry>, id: nat)
    requires e.source.UsePipe? && Outside(more, all, es)
    requires var UsePipe(r, w) := e.source;
             r != w && r !in fds && w !in fds && more == fds[r := ReadEnd(id)][w := WriteEnd(id)]
    ensures Outside(fds, all, [e] + es) && forall d :: d in more ==> d in fds || d in Held(e)
  {
    assert Held(e) <= more.Keys;
  }

  lemma SomeMore(e: Entry, es: seq<Entry>)
    ensures forall d :: HeldBySome(es, d) || d in Held(e) ==> HeldBySome([e] + es, d)
  {
    forall d | HeldBySome(es, d) || d in Held(e)
      ensures HeldBySome([e] + es, d)
    {
      if HeldBySome(es, d) {
        var i :| 0 <= i < |es| && d in Held(es[i]);
        assert d in Held(([e] + es)[i + 1]);
      } else {
        assert d in Held(([e] + es)[0]);
      }
    }
  }

  lemma BothAre(fds: Fds, ins: Behaviors, outs: Behaviors, limit: nat, next: nat)
    requires BothInfos(fds, ins, outs, limit, next).Some? && forall d :: d in fds ==> d < limit
    ensures var (all, infoin, infoout) := BothInfos(fds, ins, outs, limit, next).value;
            && Fresh(fds, all, infoin + infoout) && (forall d :: d in all ==> d < limit)
            && EntriesOf(infoin, Open(ins), false) && EntriesOf(infoout, Open(outs), true)
  {
    hide Infos, Open, EntryOf, Fresh;
    InfosFresh(fds, ins, false, limit, next);
    InfosEntries(fds, ins, false, limit, next);
    var (more, infoin) := Infos(fds, ins, false, limit, next).value;
    InfosFresh(more, outs, true, limit, next + |ins|);
    InfosEntries(more, outs, true, limit, next + |ins|);
    var (all, infoout) := Infos(more, outs, true, limit, next + |ins|).value;
    FreshBoth(fds, more, all, infoin, infoout);
  }

  lemma FreshBoth(fds: Fds, more: Fds, all: Fds, a: seq<Entry>, b: seq<Entry>)
    requires Fresh(fds, more, a) && Fresh(more, all, b)
    ensures Fresh(fds, all, a + b)
  {
    hide Covered, Outside;
    OutsideBoth(fds, more, all, a, b);
    CoveredBoth(fds, more, all, a, b);
  }

  lemma CoveredBoth(fds: Fds, more: Fds, all: Fds, a: seq<Entry>, b: seq<Entry>)
    requires Covered(fds, more, a) && Covered(more, all, b)
    ensures Covered(fds, all, a + b)
  {
    hide Held;
    forall d | d in all && d !in fds
      ensures HeldBySome(a + b, d)
    {
      if d in more {
        var i :| 0 <= i < |a| && d in Held(a[i]);
        assert d in Held((a + b)[i]);
      } else {
        var i :| 0 <= i < |b| && d in Held(b[i]);
        assert d in Held((a + b)[|a| + i]);
      }
    }
  }

  lemma OutsideBoth(fds: Fds, more: Fds, all: Fds, a: seq<Entry>, b: seq<Entry>)
    requires Outside(fds, more, a) && Outside(more, all, b)
    ensures Outside(fds, all, a + b)
  {
    forall i | 0 <= i < |a|
      ensures Held(a[i]) <= more.Keys
    {
    }
    hide Held;
    forall i, j | 0 <= i < j < |a + b|
      ensures Held((a + b)[i]) !! Held((a + b)[j])
    {
    }
  }

  // ---- which launches give the child what was meant ----

  /** The streams of a launch that are not closed, the inputs first. */
  function Streams(ins: Behaviors, outs: Behaviors): Behaviors {
    Open(ins) + Open(outs)
  }

  predicate IsRedirect(b: Behavior) {
    b.RedirectToStdout? || b.PosixRedirect?
  }

  /** Two maps from descriptors, which the setup functions can hold; only outputs are redirected. */
  ghost predicate Launchable(ins: Behaviors, outs: Behaviors, limit: nat) {
    && (forall i, j :: 0 <= i < j < |ins| ==> ins[i].0 != ins[j].0)
    && (forall i, j :: 0 <= i < j < |outs| ==> outs[i].0 != outs[j].0)
    && (forall i :: 0 <= i < |ins| ==> ins[i].0 < limit && !IsRedirect(ins[i].1))
    && (forall i :: 0 <= i < |outs| ==> outs[i].0 < limit)
  }

  /** The n-th free descriptor from i on, counted from 0. */
  function NthFree(fds: Fds, n: nat, i: nat, limit: nat): (d: Option<nat>)
    ensures d.Some? ==> d.value !in fds && d.value < limit
  {
    match LowestFree(fds, i, limit)
    case None => None
    case Some(d) => if n == 0 then Some(d) else NthFree(fds, n - 1, d + 1, limit)
  }

  function Captures(ss: Behaviors): nat {
    if ss == [] then 0 else (if ss[0].1.Capture? then 1 else 0) + Captures(ss[1..])
  }

  /** The descriptors of the m-th pipe of a launch: the next two that are free in the parent. */
  function PipeAt(fds: Fds, m: nat, limit: nat): (Option<nat>, Option<nat>) {
    (NthFree(fds, 2 * m, 0, limit), NthFree(fds, 2 * m + 1, 0, limit))
  }

  /**
   * A stream takes a free descriptor, and a later pipe is made of just that one: this can be
   * seen from the parent's open descriptors before the launch.
   */
  ghost predicate Clashes(fds: Fds, ss: Behaviors, limit: nat) {
    exists i, j :: 0 <= i < j < |ss| && StreamsClash(fds, ss, i, j, limit)
  }

  predicate StreamsClash(fds: Fds, ss: Behaviors, i: nat, j: nat, limit: nat)
    requires i < j < |ss|
  {
    && (ss[i].1.Capture? || ss[i].1.Silence?) && ss[j].1.Capture?
    && var (r, w) := PipeAt(fds, Captures(ss[..j]), limit);
       Some(ss[i].0) == r || Some(ss[i].0) == w
  }

  lemma {:induction false} FreeSame(fds: Fds, more: Fds, i: nat, limit: nat)
    requires forall d :: d >= i ==> (d in more <==> d in fds)
    ensures LowestFree(more, i, limit) == LowestFree(fds, i, limit)
    decreases limit - i
  {
    if i < limit && i in fds {
      FreeSame(fds, more, i + 1, limit);
    }
  }

  lemma {:induction false} NthSame(fds: Fds, more: Fds, n: nat, i: nat, limit: nat)
    requires forall d :: d >= i ==> (d in more <==> d in fds)
    ensures NthFree(more, n, i, limit) == NthFree(fds, n, i, limit)
  {
    hide LowestFree;
    FreeSame(fds, more, i, limit);
    if LowestFree(fds, i, limit).Some? && n > 0 {
      NthSame(fds, more, n - 1, LowestFree(fds, i, limit).value + 1, limit);
    }
  }

  lemma {:induction false} SkipOpen(fds: Fds, i: nat, j: nat, limit: nat)
    requires i <= j && forall d :: i <= d < j ==> d in fds
    ensures LowestFree(fds, i, limit) == if j <= limit then LowestFree(fds, j, limit) else None
    decreases j - i
  {
    if i < j && i < limit {
      SkipOpen(fds, i + 1, j, limit);
    }
  }

  /** With the lowest free descriptor taken, the n-th free one is what the next one was. */
  lemma TakeLowest(fds: Fds, f: File, limit: nat, n: nat)
    requires LowestFree(fds, 0, limit).Some?
    ensures var d := LowestFree(fds, 0, limit).value;
            NthFree(fds[d := f], n, 0, limit) == NthFree(fds, n + 1, 0, limit)
  {
    var d := LowestFree(fds, 0, limit).value;
    SkipOpen(fds[d := f], 0, d + 1, limit);
    assert NthFree(fds[d := f], n, 0, limit) == NthFree(fds[d := f], n, d + 1, limit);
    NthSame(fds, fds[d := f], n, d + 1, limit);
  }

  /** A pipe is made of the two lowest free descriptors, and the next two become these. */
  lemma PipedTakes(fds: Fds, limit: nat, id: nat)
    requires Piped(fds, limit, id).Some?
    ensures var (more, r, w) := Piped(fds, limit, id).value;
            (Some(r), Some(w)) == PipeAt(fds, 0, limit) && forall m: nat :: PipeAt(more, m, limit) == PipeAt(fds, m + 1, limit)
  {
    hide LowestFree;
    var (more, r, w) := Piped(fds, limit, id).value;
    TakeLowest(fds, ReadEnd(id), limit, 0);
    forall m: nat
      ensures PipeAt(more, m, limit) == PipeAt(fds, m + 1, limit)
    {
      TakeTwo(fds, r, w, id, limit, 2 * m);
      TakeTwo(fds, r, w, id, limit, 2 * m + 1);
    }
  }

  lemma TakeTwo(fds: Fds, r: nat, w: nat, id: nat, limit: nat, n: nat)
    requires LowestFree(fds, 0, limit) == Some(r) && LowestFree(fds[r := ReadEnd(id)], 0, limit) == Some(w)
    ensures NthFree(fds[r := ReadEnd(id)][w := WriteEnd(id)], n, 0, limit) == NthFree(fds, n + 2, 0, limit)
  {
    hide LowestFree, NthFree;
    TakeLowest(fds[r := ReadEnd(id)], WriteEnd(id), limit, n);
    TakeLowest(fds, ReadEnd(id), limit, n + 1);
  }

  /** The pipes of the entries are those that can be told from the parent's table. */
  ghost predicate PipesFrom(fds: Fds, es: seq<Entry>, ss: Behaviors, from: nat, limit: nat) {
    |es| == |ss| && forall j :: 0 <= j < |es| && es[j].source.UsePipe? ==>
      (Some(es[j].source.read), Some(es[j].source.write)) == PipeAt(fds, from + Captures(ss[..j]), limit)
  }

  lemma {:induction false} CapturesOfBoth(a: Behaviors, b: Behaviors)
    ensures Captures(a + b) == Captures(a) + Captures(b)
  {
    if a == [] {
      assert a + b == b;
    } else {
      CapturesOfBoth(a[1..], b);
      assert (a + b)[1..] == a[1..] + b;
    }
  }

  lemma PipesMore(fds: Fds, e: Entry, es: seq<Entry>, s: (nat, Behavior), ss: Behaviors, from: nat, limit: nat)
    requires PipesFrom(fds, es, ss, from + Captures([s]), limit) && (e.source.UsePipe? ==> s.1.Capture?)
    requires e.source.UsePipe? ==> (Some(e.source.read), Some(e.source.write)) == PipeAt(fds, from, limit)
    ensures PipesFrom(fds, [e] + es, [s] + ss, from, limit)
  {
    hide PipeAt, Captures;
    NoCaptures();
    forall j | 0 <= j < |[e] + es|
      ensures Captures(([s] + ss)[..j]) == if j == 0 then 0 else Captures([s]) + Captures(ss[..j - 1])
    {
      if j == 0 {
        assert ([s] + ss)[..j] == [];
      } else {
        assert ([s] + ss)[..j] == [s] + ss[..j - 1];
        CapturesOfBoth([s], ss[..j - 1]);
      }
    }
  }

  lemma NoCaptures()
    ensures Captures([]) == 0
    ensures forall s: (nat, Behavior) :: Captures([s]) == if s.1.Capture? then 1 else 0
  {
  }

  /** With c pipes made of the lowest free descriptors. */
  ghost predicate Taken(orig: Fds, fds: Fds, c: nat, limit: nat) {
    forall m: nat :: PipeAt(fds, m, limit) == PipeAt(orig, m + c, limit)
  }

  lemma {:induction false} InfosPipes(orig: Fds, fds: Fds, bs: Behaviors, out: bool, limit: nat, next: nat, c: nat)
    requires Infos(fds, bs, out, limit, next).Some? && Taken(orig, fds, c, limit)
    ensures var (all, es) := Infos(fds, bs, out, limit, next).value;
            PipesFrom(orig, es, Open(bs), c, limit) && Taken(orig, all, c + Captures(Open(bs)), limit)
    decreases bs
  {
    hide Piped, PipeAt, Captures, PipesFrom, Taken;
    NoCaptures();
    if bs == [] {
      PipesNone(orig, c, limit);
    } else {
      var (d, b) := bs[0];
      if b.Close? {
        InfosPipes(orig, fds, bs[1..], out, limit, next, c);
        assert [] + Open(bs[1..]) == Open(bs[1..]);
      } else if b.Capture? {
        var (more, r, w) := Piped(fds, limit, next).value;
        PipeTaken(orig, fds, limit, next, c);
        InfosPipes(orig, more, bs[1..], out, limit, next + 1, c + 1);
        var es := Infos(more, bs[1..], out, limit, next + 1).value.1;
        PipesMore(orig, Entry(d, UsePipe(r, w), out), es, bs[0], Open(bs[1..]), c, limit);
        CapturesOfBoth([bs[0]], Open(bs[1..]));
      } else {
        InfosPipes(orig, fds, bs[1..], out, limit, next, c);
        var es := Infos(fds, bs[1..], out, limit, next).value.1;
        PipesMore(orig, Entry(d, Plain(b, out), out), es, bs[0], Open(bs[1..]), c, limit);
        CapturesOfBoth([bs[0]], Open(bs[1..]));
      }
    }
  }

  lemma PipesNone(fds: Fds, c: nat, limit: nat)
    ensures PipesFrom(fds, [], [], c, limit)
  {
  }

  lemma PipeTaken(orig: Fds, fds: Fds, limit: nat, next: nat, c: nat)
    requires Piped(fds, limit, next).Some? && Taken(orig, fds, c, limit)
    ensures var (more, r, w) := Piped(fds, limit, next).value;
            Taken(orig, more, c + 1, limit) && (Some(r), Some(w)) == PipeAt(orig, c, limit)
  {
    hide Piped, PipeAt;
    PipedTakes(fds, limit, next);
    var more := Piped(fds, limit, next).value.0;
    forall m: nat
      ensures PipeAt(more, m, limit) == PipeAt(orig, m + (c + 1), limit)
    {
      assert PipeAt(more, m, limit) == PipeAt(fds, m + 1, limit) == PipeAt(orig, m + 1 + c, limit);
    }
  }

  lemma TakenNone(fds: Fds, limit: nat)
    ensures Taken(fds, fds, 0, limit)
  {
  }

  lemma BothPipes(fds: Fds, ins: Behaviors, outs: Behaviors, limit: nat, next: nat)
    requires BothInfos(fds, ins, outs, limit, next).Some?
    ensures var (all, infoin, infoout) := BothInfos(fds, ins, outs, limit, next).value;
            PipesFrom(fds, infoin + infoout, Streams(ins, outs), 0, limit)
  {
    hide Infos, Open, PipeAt, Captures, PipesFrom, Taken;
    TakenNone(fds, limit);
    InfosPipes(fds, fds, ins, false, limit, next, 0);
    var (more, infoin) := Infos(fds, ins, false, limit, next).value;
    InfosPipes(fds, more, outs, true, limit, next + |ins|, Captures(Open(ins)));
    var infoout := Infos(more, outs, true, limit, next + |ins|).value.1;
    PipesOfBoth(fds, infoin, infoout, Open(ins), Open(outs), limit);
  }

  lemma PipesOfBoth(fds: Fds, a: seq<Entry>, b: seq<Entry>, sa: Behaviors, sb: Behaviors, limit: nat)
    requires PipesFrom(fds, a, sa, 0, limit) && PipesFrom(fds, b, sb, Captures(sa), limit)
    ensures PipesFrom(fds, a + b, sa + sb, 0, limit)
  {
    hide PipeAt, Captures;
    forall j | 0 <= j < |a + b|
      ensures Captures((sa + sb)[..j]) == if j < |a| then Captures(sa[..j]) else Captures(sa) + Captures(sb[..j - |a|])
    {
      if j < |a| {
        assert (sa + sb)[..j] == sa[..j];
      } else {
        assert (sa + sb)[..j] == sa + sb[..j - |a|];
        CapturesOfBoth(sa, sb[..j - |a|]);
      }
    }
  }

  /** The streams that a launch can be asked to set up as they are meant. */
  ghost predicate Meaningful(fds: Fds, ss: Behaviors) {
    && (forall i, j :: 0 <= i < j < |ss| ==> ss[i].0 != ss[j].0)
    && (forall i :: 0 <= i < |ss| && IsRedirect(ss[i].1) ==> LeadsSomewhere(fds, ss, ss[i].1))
  }

  function LeadsTo(b: Behavior): nat
    requires IsRedirect(b)
  {
    if b.PosixRedirect? then b.to else 1
  }

  /**
   * The redirect leads to a stream that is set up or open in the parent, or else to a descriptor
   * that is open in the parent and no stream of the launch.
   */
  ghost predicate LeadsSomewhere(fds: Fds, ss: Behaviors, b: Behavior)
    requires IsRedirect(b)
  {
    || (exists k :: 0 <= k < |ss| && ss[k].0 == LeadsTo(b) && !IsRedirect(ss[k].1)
          && (ss[k].1.InheritStream? ==> ss[k].0 in fds))
    || (LeadsTo(b) in fds && forall k :: 0 <= k < |ss| ==> ss[k].0 != LeadsTo(b))
  }

  /** The entry of each stream, and what can be told of it. */
  lemma LaunchEntries(fds: Fds, ins: Behaviors, outs: Behaviors, limit: nat, next: nat)
    requires BothInfos(fds, ins, outs, limit, next).Some? && forall d :: d in fds ==> d < limit
    ensures var (all, infoin, infoout) := BothInfos(fds, ins, outs, limit, next).value;
            var es, ss := infoin + infoout, Streams(ins, outs);
            && |es| == |ss| && |infoin| == |Open(ins)| && Fresh(fds, all, es) && PipesFrom(fds, es, ss, 0, limit)
            && (forall d :: d in all ==> d < limit)
            && forall i :: 0 <= i < |es| ==> EntryOf(es[i], ss[i], i >= |infoin|)
  {
    hide BothInfos, Open, LowestFree, Fresh, EntryOf, PipesFrom;
    BothAre(fds, ins, outs, limit, next);
    BothPipes(fds, ins, outs, limit, next);
  }

  /** A launch forks what the child's set-up asks for. */
  lemma LaunchIsProper(fds: Fds, ins: Behaviors, outs: Behaviors, limit: nat, next: nat)
    requires BothInfos(fds, ins, outs, limit, next).Some? && forall d :: d in fds ==> d < limit
    requires Launchable(ins, outs, limit) && Meaningful(fds, Streams(ins, outs))
    ensures var (all, infoin, infoout) := BothInfos(fds, ins, outs, limit, next).value;
            Proper(fds, all, infoin, infoout, limit)
  {
    hide BothInfos, Open, LowestFree, PipesFrom, FitsFlags, EntryOf, Outside, Covered, Ready, Held, Gone, Claims,
         LeadsSomewhere;
    LaunchEntries(fds, ins, outs, limit, next);
    LaunchShape(fds, ins, outs, limit, next);
    var (all, infoin, infoout) := BothInfos(fds, ins, outs, limit, next).value;
    var es, ss := infoin + infoout, Streams(ins, outs);
    FreshIs(fds, all, es);
    forall i | 0 <= i < |es|
      ensures Ready(fds, all, es[i])
    {
      EntryReady(fds, all, es, i);
    }
    forall i | 0 <= i < |es| && es[i].source.Redirect?
      ensures Origin(fds, es, es[i].source.to) < |es| || Bystander(fds, es, es[i].source.to)
    {
      EntryIs(es[i], ss[i], i >= |infoin|);
      RedirectFound(fds, es, ss, |infoin|, ss[i].1);
    }
    forall i, j | 0 <= i < j < |es|
      ensures es[i].target != es[j].target
    {
      EntryIs(es[i], ss[i], i >= |infoin|);
      EntryIs(es[j], ss[j], j >= |infoin|);
    }
  }

  lemma FreshIs(fds: Fds, all: Fds, es: seq<Entry>)
    requires Fresh(fds, all, es)
    ensures Forked(fds, all, es) && forall i, j :: 0 <= i < j < |es| ==> Held(es[i]) !! Held(es[j])
  {
    hide Held;
  }

  lemma EntryReady(fds: Fds, all: Fds, es: seq<Entry>, i: nat)
    requires Fresh(fds, all, es) && i < |es|
    ensures Ready(fds, all, es[i])
  {
    hide Covered;
  }

  lemma EntryIs(e: Entry, s: (nat, Behavior), out: bool)
    requires EntryOf(e, s, out)
    ensures e.target == s.0 && (e.source.Redirect? <==> IsRedirect(s.1)) && (e.source.Inherit? <==> s.1.InheritStream?)
    ensures e.source.Redirect? ==> e.source.to == LeadsTo(s.1)
  {
  }

  lemma RedirectFound(fds: Fds, es: seq<Entry>, ss: Behaviors, m: nat, b: Behavior)
    requires |es| == |ss| && IsRedirect(b) && LeadsSomewhere(fds, ss, b)
    requires forall i :: 0 <= i < |es| ==> EntryOf(es[i], ss[i], i >= m)
    ensures Origin(fds, es, LeadsTo(b)) < |es| || Bystander(fds, es, LeadsTo(b))
  {
    hide EntryOf;
    if k :| 0 <= k < |ss| && ss[k].0 == LeadsTo(b) && !IsRedirect(ss[k].1) && (ss[k].1.InheritStream? ==> ss[k].0 in fds) {
      EntryIs(es[k], ss[k], k >= m);
      OriginFound(fds, es, k);
    } else {
      forall k | 0 <= k < |es|
        ensures es[k].target != LeadsTo(b)
      {
        EntryIs(es[k], ss[k], k >= m);
      }
    }
  }

  lemma {:induction false} OriginFound(orig: Fds, es: seq<Entry>, k: nat)
    requires k < |es| && Claims(orig, es[k])
    ensures Origin(orig, es, es[k].target) < |es|
  {
    if k > 0 {
      OriginFound(orig, es[1..], k - 1);
    }
  }

  /** The entries clash exactly if the streams do. */
  lemma ClashesSeen(fds: Fds, ins: Behaviors, outs: Behaviors, limit: nat, next: nat)
    requires BothInfos(fds, ins, outs, limit, next).Some? && forall d :: d in fds ==> d < limit
    ensures var (all, infoin, infoout) := BothInfos(fds, ins, outs, limit, next).value;
            NoClash(fds, infoin + infoout) <==> !Clashes(fds, Streams(ins, outs), limit)
  {
    hide BothInfos, Open, LowestFree, NthFree, Captures, Covered;
    LaunchEntries(fds, ins, outs, limit, next);
    var (all, infoin, infoout) := BothInfos(fds, ins, outs, limit, next).value;
    var es, ss := infoin + infoout, Streams(ins, outs);
    forall i, j | 0 <= i < j < |es|
      ensures Clash(fds, es[i], es[j]) <==> StreamsClash(fds, ss, i, j, limit)
    {
      assert EntryOf(es[i], ss[i], i >= |infoin|) && EntryOf(es[j], ss[j], j >= |infoin|);
      assert Held(es[i]) !! fds.Keys && Held(es[j]) !! fds.Keys;
    }
    if Clashes(fds, ss, limit) {
      var i, j :| 0 <= i < j < |ss| && StreamsClash(fds, ss, i, j, limit);
      assert Clash(fds, es[i], es[j]);
    }
    if !NoClash(fds, es) {
      var i, j :| 0 <= i < j < |es| && Clash(fds, es[i], es[j]);
      assert StreamsClash(fds, ss, i, j, limit);
    }
  }

  /**
   * A launch gives the child just what was meant exactly if no stream takes a free descriptor
   * that a later pipe is made of; and unless streams clash or are silenced, nothing fails.
   */
  lemma LaunchExactly(fds: Fds, ins: Behaviors, outs: Behaviors, disk: set<string>, limit: nat, next: nat)
    requires BothInfos(fds, ins, outs, limit, next).Some? && forall d :: d in fds ==> d < limit
    requires Launchable(ins, outs, limit) && Meaningful(fds, Streams(ins, outs))
    ensures var (all, infoin, infoout) := BothInfos(fds, ins, outs, limit, next).value;
            var es, ss, child := infoin + infoout, Streams(ins, outs), Child(all, infoin, infoout, disk, limit);
            && Proper(fds, all, infoin, infoout, limit)
            && (child.Some? ==> (AsMeant(fds, all, es, child.value) <==> !Clashes(fds, ss, limit)))
            && (!Clashes(fds, ss, limit) && (forall i :: 0 <= i < |ss| ==> !ss[i].1.Silence?) ==> child.Some?)
  {
    hide BothInfos, Open, Clashes, NoClash, Child, Proper, AsMeant;
    LaunchIsProper(fds, ins, outs, limit, next);
    LaunchEntries(fds, ins, outs, limit, next);
    ClashesSeen(fds, ins, outs, limit, next);
    var (all, infoin, infoout) := BothInfos(fds, ins, outs, limit, next).value;
    var es, ss := infoin + infoout, Streams(ins, outs);
    assert Proper(fds, all, infoin, infoout, limit);
    ChildTable(fds, all, infoin, infoout, disk, limit);
    NoneHeld(fds, all, es);
    if forall i :: 0 <= i < |ss| ==> !ss[i].1.Silence? {
      forall i | 0 <= i < |es|
        ensures !es[i].source.UseFile?
      {
        assert EntryOf(es[i], ss[i], i >= |infoin|);
      }
    }
  }

  /** The streams of a launch are those of both maps that are not closed. */
  lemma {:induction false} StreamsAre(ins: Behaviors, outs: Behaviors, s: (nat, Behavior))
    ensures s in Streams(ins, outs) <==> (s in ins || s in outs) && !s.1.Close?
    decreases |ins| + |outs|
  {
    if ins != [] {
      StreamsAre(ins[1..], outs, s);
      assert ins == [ins[0]] + ins[1..];
    } else if outs != [] {
      StreamsAre([], outs[1..], s);
      assert outs == [outs[0]] + outs[1..];
    }
  }

  /** What the child has for a stream of a launch with m inputs, the parent's table being `fds`. */
  ghost predicate Given(fds: Fds, ss: Behaviors, m: nat, child: Fds, i: nat)
    requires i < |ss|
  {
    var (d, b) := ss[i];
    var out := i >= m;
    match b
    case Capture => d in child && if out then child[d].WriteEnd? else child[d].ReadEnd?
    case Close => false
    case InheritStream => if d in fds then d in child && child[d] == fds[d] else d !in child
    case Silence => d in child && child[d] == OnDisk(if out then "/dev/null" else "/dev/zero", out)
    case RedirectToStdout => d in child && LikeAt(fds, ss, child, child[d], 1)
    case PosixRedirect(to) => d in child && LikeAt(fds, ss, child, child[d], to)
  }

  /** The file of the stream `to`, or of the parent's descriptor if that is no stream. */
  ghost predicate LikeAt(fds: Fds, ss: Behaviors, child: Fds, file: File, to: nat) {
    if exists k :: 0 <= k < |ss| && ss[k].0 == to then to in child && file == child[to] else to in fds && file == fds[to]
  }

  /** The targets of the streams are apart. */
  lemma TargetsApart(es: seq<Entry>, ss: Behaviors, m: nat)
    requires |es| == |ss| && (forall i, j :: 0 <= i < j < |ss| ==> ss[i].0 != ss[j].0)
    requires forall i :: 0 <= i < |es| ==> EntryOf(es[i], ss[i], i >= m)
    ensures forall i, j :: 0 <= i < |es| && 0 <= j < |es| && i != j ==> es[i].target != es[j].target
  {
    hide EntryOf;
    forall i | 0 <= i < |es|
      ensures es[i].target == ss[i].0
    {
      EntryIs(es[i], ss[i], i >= m);
    }
  }

  lemma GoneGiven(fds: Fds, all: Fds, es: seq<Entry>, child: Fds, i: nat)
    requires AllReady(fds, all, es) && RedirectsEnd(fds, es) && AsMeant(fds, all, es, child) && i < |es| && Gone(fds, es[i])
    requires forall j :: 0 <= j < |es| && j != i ==> es[j].target != es[i].target
    ensures es[i].target !in child
  {
    hide Meant, RedirectsEnd;
  }

  /** A stream that is no redirect has the file of its entry. */
  lemma PlainGiven(fds: Fds, all: Fds, es: seq<Entry>, s: (nat, Behavior), out: bool, child: Fds, i: nat)
    requires AllReady(fds, all, es) && RedirectsEnd(fds, es) && AsMeant(fds, all, es, child) && Fresh(fds, all, es)
    requires i < |es| && EntryOf(es[i], s, out) && !IsRedirect(s.1) && !Gone(fds, es[i])
    ensures s.0 in child
    ensures s.1.Capture? ==> if out then child[s.0].WriteEnd? else child[s.0].ReadEnd?
    ensures s.1.InheritStream? ==> s.0 in fds && child[s.0] == fds[s.0]
    ensures s.1.Silence? ==> child[s.0] == OnDisk(if out then "/dev/null" else "/dev/zero", out)
  {
    hide Held, Covered, RedirectsEnd;
    assert child[s.0] == Meant(fds, all, es, i) == Intended(fds, all, es[i]);
  }

  /** A redirected stream has what the stream it leads to has, or else what the parent has there. */
  lemma RedirectGiven(fds: Fds, all: Fds, es: seq<Entry>, child: Fds, i: nat)
    requires AllReady(fds, all, es) && RedirectsEnd(fds, es) && AsMeant(fds, all, es, child)
    requires i < |es| && es[i].source.Redirect?
    ensures es[i].target in child
    ensures var to := es[i].source.to;
            if exists k :: 0 <= k < |es| && es[k].target == to then to in child && child[es[i].target] == child[to]
            else to in fds && child[es[i].target] == fds[to]
  {
    var to := es[i].source.to;
    var o := Origin(fds, es, to);
    assert child[es[i].target] == Meant(fds, all, es, i);
    if o < |es| {
      assert child[to] == Meant(fds, all, es, o) == Intended(fds, all, es[o]);
    }
  }

  lemma StreamGiven(fds: Fds, all: Fds, es: seq<Entry>, ss: Behaviors, m: nat, child: Fds, i: nat)
    requires AllReady(fds, all, es) && RedirectsEnd(fds, es) && AsMeant(fds, all, es, child) && Fresh(fds, all, es)
    requires |es| == |ss| && i < |ss| && (forall i, j :: 0 <= i < j < |ss| ==> ss[i].0 != ss[j].0)
    requires forall j :: 0 <= j < |es| ==> EntryOf(es[j], ss[j], j >= m)
    ensures Given(fds, ss, m, child, i)
  {
    hide EntryOf, Fresh, AsMeant, AllReady, RedirectsEnd;
    TargetsApart(es, ss, m);
    EntryIs(es[i], ss[i], i >= m);
    OpenHere(es[i], ss[i], i >= m);
    if IsRedirect(ss[i].1) {
      RedirectGiven(fds, all, es, child, i);
      forall k | 0 <= k < |es|
        ensures es[k].target == ss[k].0
      {
        EntryIs(es[k], ss[k], k >= m);
      }
    } else if Gone(fds, es[i]) {
      GoneGiven(fds, all, es, child, i);
    } else {
      PlainGiven(fds, all, es, ss[i], i >= m, child, i);
    }
  }

  lemma OpenHere(e: Entry, s: (nat, Behavior), out: bool)
    requires EntryOf(e, s, out)
    ensures !s.1.Close?
  {
  }

  /**
   * Without a clash the child has, for each stream that is not closed, what its behavior says: the
   * end of a pipe, the parent's file, the null or zero device, or what the redirect leads to; and
   * nothing else.
   */
  lemma LaunchGives(fds: Fds, ins: Behaviors, outs: Behaviors, disk: set<string>, limit: nat, next: nat)
    requires BothInfos(fds, ins, outs, limit, next).Some? && forall d :: d in fds ==> d < limit
    requires Launchable(ins, outs, limit) && Meaningful(fds, Streams(ins, outs)) && !Clashes(fds, Streams(ins, outs), limit)
    ensures var (all, infoin, infoout) := BothInfos(fds, ins, outs, limit, next).value;
            var ss, child := Streams(ins, outs), Child(all, infoin, infoout, disk, limit);
            child.Some? ==>
              && (forall d :: d in child.value ==> exists i :: 0 <= i < |ss| && ss[i].0 == d)
              && (forall i :: 0 <= i < |ss| ==> Given(fds, ss, |Open(ins)|, child.value, i))
  {
    hide BothInfos, Open, Clashes, Child, EntryOf, Fresh, Given, PipesFrom;
    LaunchExactly(fds, ins, outs, disk, limit, next);
    LaunchEntries(fds, ins, outs, limit, next);
    var (all, infoin, infoout) := BothInfos(fds, ins, outs, limit, next).value;
    var es, ss, child := infoin + infoout, Streams(ins, outs), Child(all, infoin, infoout, disk, limit);
    if child.Some? {
      ProperSays(fds, all, infoin, infoout, limit);
      forall i | 0 <= i < |ss|
        ensures Given(fds, ss, |Open(ins)|, child.value, i) && es[i].target == ss[i].0
      {
        EntryIs(es[i], ss[i], i >= |infoin|);
        StreamGiven(fds, all, es, ss, |infoin|, child.value, i);
      }
    }
  }

  lemma NoneHeld(fds: Fds, all: Fds, es: seq<Entry>)
    requires Fresh(fds, all, es)
    ensures Undisturbed(fds, es)
  {
    hide Held, Covered;
    assert forall i, d :: 0 <= i < |es| && d in Held(es[i]) ==> d !in fds;
  }

  /** A redirect to a descriptor that is closed in the parent, and that no stream sets up, ends the child. */
  lemma LaunchFails(fds: Fds, ins: Behaviors, outs: Behaviors, disk: set<string>, limit: nat, next: nat, k: nat)
    requires BothInfos(fds, ins, outs, limit, next).Some? && (forall d :: d in fds ==> d < limit)
    requires Launchable(ins, outs, limit) && k < |Open(outs)| && IsRedirect(Open(outs)[k].1)
    requires var ss, d := Streams(ins, outs), LeadsTo(Open(outs)[k].1);
             && (forall i, j :: 0 <= i < j < |ss| ==> ss[i].0 != ss[j].0)
             && d !in fds && forall j :: 0 <= j < |ss| && ss[j].0 == d ==> ss[j].1.InheritStream?
    ensures var (all, infoin, infoout) := BothInfos(fds, ins, outs, limit, next).value;
            Child(all, infoin, infoout, disk, limit).None?
  {
    hide BothInfos, Open, LowestFree, PipesFrom, EntryOf, Fresh, Held, Child;
    LaunchEntries(fds, ins, outs, limit, next);
    LaunchShape(fds, ins, outs, limit, next);
    var (all, infoin, infoout) := BothInfos(fds, ins, outs, limit, next).value;
    var es, ss, d := infoin + infoout, Streams(ins, outs), LeadsTo(Open(outs)[k].1);
    FreshIs(fds, all, es);
    forall i | 0 <= i < |es|
      ensures es[i].target == ss[i].0 && (es[i].source.Redirect? <==> IsRedirect(ss[i].1))
      ensures ss[i].1.InheritStream? ==> es[i].source.Inherit?
      ensures es[i].source.Redirect? ==> es[i].source.to == LeadsTo(ss[i].1)
    {
      EntryIs(es[i], ss[i], i >= |infoin|);
    }
    assert ss[|infoin| + k] == Open(outs)[k] && es[|infoin| + k] == infoout[k];
    assert forall j :: 0 <= j < |infoout| ==> infoout[j] == es[|infoin| + j];
    assert forall j :: 0 <= j < |infoin| ==> infoin[j] == es[j];
    assert Origin(fds, es, d) == |es|;
    RedirectNowhere(fds, all, infoin, infoout, disk, limit, k);
  }

  /** With one capture, or with all targets open in the parent, nothing clashes. */
  lemma SeldomClashes(fds: Fds, ss: Behaviors, limit: nat)
    requires
      || (Captures(ss) <= 1 && forall i :: 0 <= i < |ss| ==> !ss[i].1.Silence?)
      || (forall i :: 0 <= i < |ss| ==> ss[i].0 in fds)
    ensures !Clashes(fds, ss, limit)
  {
    hide Captures, NthFree;
    forall i, j | 0 <= i < j < |ss| && ss[i].1.Capture? && ss[j].1.Capture?
      ensures Captures(ss) >= 2
    {
      TwoCounted(ss, i, j);
    }
  }

  lemma TwoCounted(ss: Behaviors, i: nat, j: nat)
    requires i < j < |ss| && ss[i].1.Capture? && ss[j].1.Capture?
    ensures Captures(ss) >= 2
  {
    CapturesOfBoth(ss[..i], ss[i..]);
    CapturesOfBoth(ss[i..j], ss[j..]);
    assert ss[..i] + ss[i..] == ss && ss[i..j] + ss[j..] == ss[i..];
  }

  /** In a parent that has 0 to 2 open, captures as 3 and 4 come out right, as 5 and 6 they clash. */
  lemma TwoCaptures(fds: Fds, limit: nat)
    requires fds.Keys == {0, 1, 2} && limit > 6
    ensures !Clashes(fds, [(3, Capture), (4, Capture)], limit) && Clashes(fds, [(5, Capture), (6, Capture)], limit)
  {
    var good: Behaviors, bad: Behaviors := [(3, Capture), (4, Capture)], [(5, Capture), (6, Capture)];
    SkipOpen(fds, 0, 3, limit);
    assert LowestFree(fds, 4, limit) == Some(4) && LowestFree(fds, 5, limit) == Some(5) && LowestFree(fds, 6, limit) == Some(6);
    assert NthFree(fds, 0, 6, limit) == Some(6);
    assert NthFree(fds, 1, 5, limit) == Some(6) && NthFree(fds, 0, 5, limit) == Some(5);
    assert NthFree(fds, 2, 4, limit) == Some(6) && NthFree(fds, 1, 4, limit) == Some(5);
    assert PipeAt(fds, 1, limit) == (Some(5), Some(6));
    assert good[..1] == [good[0]] && bad[..1] == [bad[0]];
    NoCaptures();
    assert StreamsClash(fds, bad, 0, 1, limit);
  }

  /** The streams of process::run: the standard outputs are inherited, descriptor 3 is captured. */
  const RUN_STREAMS: Behaviors := [(1, InheritStream), (2, InheritStream), (3, Capture)]

  /**
   * Whatever is open in the parent, the child of process::run gets the parent's standard outputs
   * as far as they are open, the write end of the pipe as descriptor 3, and nothing else.
   */
  lemma RunGives(fds: Fds, limit: nat, next: nat)
    requires BothInfos(fds, [], RUN_STREAMS, limit, next).Some? && limit > 3 && forall d :: d in fds ==> d < limit
    ensures var (all, infoin, infoout) := BothInfos(fds, [], RUN_STREAMS, limit, next).value;
            Child(all, infoin, infoout, {}, limit) ==
              Some((map d | d in fds && (d == 1 || d == 2) :: fds[d])[3 := WriteEnd(next)])
  {
    hide LowestFree, Piped, SetUp, Redirected;
    RunInfos(fds, limit, next);
    PipedIs(fds, limit, next);
    var (all, r, w) := Piped(fds, limit, next).value;
    RunSetUp(all, r, w, limit);
    assert r in all && w in all;
    var targets := Targets([] + RunEntries(r, w));
    assert targets == {1, 2, 3} by {
      var es := [] + RunEntries(r, w);
      assert es[0].target == 1 && es[1].target == 2 && es[2].target == 3;
    }
    RunTable(fds, r, w, limit, next, targets);
    var t := RunRemapped(all, r, w);
    assert Child(all, [], RunEntries(r, w), {}, limit) == Some(map d | d in t && (d >= limit || d in targets) :: t[d]);
  }

  /** The table of the child before the close loop. */
  function RunRemapped(all: Fds, r: nat, w: nat): Fds
    requires w in all && r != w
  {
    if w == 3 then all - {r} else Remapped(all - {r}, w, 3)
  }

  lemma RunSetUp(all: Fds, r: nat, w: nat, limit: nat)
    requires w in all && r != w
    ensures SetUp(all, [] + RunEntries(r, w), {}, limit) == Some(RunRemapped(all, r, w))
    ensures Redirected(RunRemapped(all, r, w), RunEntries(r, w)) == Some(RunRemapped(all, r, w))
  {
    hide LowestFree, Remapped;
    var es, fds := RunEntries(r, w), RunRemapped(all, r, w);
    var last: seq<Entry> := [];
    assert [] + es == es && es[1..] == [es[1], es[2]] && es[1..][1..] == [es[2]] && [es[2]][1..] == last;
    assert SetUp(fds, last, {}, limit) == Some(fds) && Redirected(fds, last) == Some(fds);
    assert SetUp(all, [es[2]], {}, limit) == Some(fds) && Redirected(fds, [es[2]]) == Some(fds);
    assert SetUp(all, es[1..], {}, limit) == Some(fds) && Redirected(fds, es[1..]) == Some(fds);
  }

  lemma RunTable(fds: Fds, r: nat, w: nat, limit: nat, next: nat, targets: set<nat>)
    requires targets == {1, 2, 3} && r != w && r !in fds && w !in fds && limit > 3 && forall d :: d in fds ==> d < limit
    requires r < limit && w < limit
    ensures var t := RunRemapped(fds[r := ReadEnd(next)][w := WriteEnd(next)], r, w);
            (map d | d in t && (d >= limit || d in targets) :: t[d])
            == (map d | d in fds && (d == 1 || d == 2) :: fds[d])[3 := WriteEnd(next)]
  {
  }

  function RunEntries(r: nat, w: nat): seq<Entry> {
    [Entry(1, Inherit, true), Entry(2, Inherit, true), Entry(3, UsePipe(r, w), true)]
  }

  lemma RunInfos(fds: Fds, limit: nat, next: nat)
    requires BothInfos(fds, [], RUN_STREAMS, limit, next).Some?
    ensures Piped(fds, limit, next).Some?
    ensures var (all, r, w) := Piped(fds, limit, next).value;
            BothInfos(fds, [], RUN_STREAMS, limit, next) == Some((all, [], RunEntries(r, w)))
  {
    hide Piped;
    var ss: Behaviors := RUN_STREAMS;
    var last: Behaviors := [];
    assert ss[1..] == [ss[1], ss[2]] && ss[1..][1..] == [ss[2]] && [ss[2]][1..] == last;
    assert Infos(fds, last, false, limit, next) == Some((fds, []));
    if Piped(fds, limit, next).None? {
      assert Infos(fds, [ss[2]], true, limit, next) == None;
      assert Infos(fds, ss[1..], true, limit, next) == None;
    } else {
      var (all, r, w) := Piped(fds, limit, next).value;
      var es := RunEntries(r, w);
      assert Infos(all, last, true, limit, next + 1) == Some((all, []));
      assert [es[2]] + [] == [es[2]] && [es[1]] + [es[2]] == es[1..] && [es[0]] + es[1..] == es;
      assert Infos(fds, [ss[2]], true, limit, next) == Some((all, [es[2]]));
      assert Infos(fds, ss[1..], true, limit, next) == Some((all, es[1..]));
    }
  }

  /** So it has all three exactly when both standard outputs are open in the parent. */
  lemma RunNeedsStandardOutputs(fds: Fds, limit: nat, next: nat)
    requires BothInfos(fds, [], RUN_STREAMS, limit, next).Some? && limit > 3 && forall d :: d in fds ==> d < limit
    ensures var (all, infoin, infoout) := BothInfos(fds, [], RUN_STREAMS, limit, next).value;
            var child := Child(all, infoin, infoout, {}, limit);
            child.Some? && (child.value.Keys == {1, 2, 3} <==> 1 in fds && 2 in fds)
  {
    RunGives(fds, limit, next);
    assert 3 in (map d | d in fds && (d == 1 || d == 2) :: fds[d])[3 := WriteEnd(next)];
  }

  // ---- the parent's side ----

  function OwnEnd(e: Entry): Option<nat> {
    if e.source.UsePipe? then Some(DroppedEnd(e)) else None
  }

  /** The parent's end of the pipe of a stream. */
  function ParentEnd(es: seq<Entry>, d: nat): Option<nat> {
    if es == [] then None
    else if es[0].target == d then OwnEnd(es[0])
    else ParentEnd(es[1..], d)
  }

  function Erased(es: seq<Entry>, d: nat): seq<Entry> {
    if es == [] then [] else (if es[0].target == d then [] else [es[0]]) + Erased(es[1..], d)
  }

  lemma {:induction false} ErasedEnds(es: seq<Entry>, d: nat, x: nat)
    ensures ParentEnd(Erased(es, d), x) == if x == d then None else ParentEnd(es, x)
  {
    if es != [] {
      ErasedEnds(es[1..], d, x);
      var rest := Erased(es[1..], d);
      assert ([es[0]] + rest)[1..] == rest && [] + rest == rest;
    }
  }

  function Lookup(m: map<nat, nat>, d: nat): Option<nat> {
    if d in m then Some(m[d]) else None
  }

  /** The streams to a child, each over the parent's end of one pipe. */
  class PosixChild {
    var stdin: Option<nat>
    var stdout: Option<nat>
    var stderr: Option<nat>
    var inputMap: map<nat, nat>
    var outputMap: map<nat, nat>

    /** get_input */
    function Input(d: nat): Option<nat>
      reads this
    {
      if d == 0 then stdin else Lookup(inputMap, d)
    }

    /** get_output */
    function Output(d: nat): Option<nat>
      reads this
    {
      if d == 1 then stdout else if d == 2 then stderr else Lookup(outputMap, d)
    }

    constructor (infoin: seq<Entry>, infoout: seq<Entry>)
      requires Distinct(infoin) && Distinct(infoout)
      ensures forall d :: Input(d) == ParentEnd(infoin, d)
      ensures forall d :: Output(d) == ParentEnd(infoout, d)
    {
      hide ParentEnd, Erased, Distinct;
      var in0, ins := LocatePipe(infoin, 0);
      var out1, outs := LocatePipe(infoout, 1);
      ErasedDistinct(infoin, 0);
      ErasedDistinct(infoout, 1);
      var err2, rest := LocatePipe(outs, 2);
      ErasedDistinct(outs, 2);
      stdin, stdout, stderr := in0, out1, err2;
      var inputs := Rest(ins);
      var outputs := Rest(rest);
      inputMap, outputMap := inputs, outputs;
      new;
      forall d ensures Input(d) == ParentEnd(infoin, d) {
        ErasedEnds(infoin, 0, d);
      }
      forall d ensures Output(d) == ParentEnd(infoout, d) {
        ErasedEnds(infoout, 1, d);
        ErasedEnds(infoout, 1, 2);
        ErasedEnds(outs, 2, d);
      }
    }
  }

  ghost predicate Distinct(es: seq<Entry>) {
    forall i, j :: 0 <= i < j < |es| ==> es[i].target != es[j].target
  }

  /** posix_info_locate_pipe: takes the entry out, and releases the parent's end of its pipe. */
  method LocatePipe(info: seq<Entry>, desc: nat) returns (fh: Option<nat>, rest: seq<Entry>)
    requires Distinct(info)
    ensures fh == ParentEnd(info, desc) && rest == Erased(info, desc)
  {
    hide ParentEnd, Erased, Distinct;
    var i := 0;
    while i < |info| && info[i].target != desc
      invariant i <= |info| && forall j :: 0 <= j < i ==> info[j].target != desc
      decreases |info| - i
    {
      i := i + 1;
    }
    Located(info, i, desc);
    if i == |info| {
      return None, info;
    }
    return OwnEnd(info[i]), info[..i] + info[i + 1..];
  }

  lemma {:induction false} Located(info: seq<Entry>, i: nat, d: nat)
    requires Distinct(info) && i <= |info| && (i < |info| ==> info[i].target == d)
    requires forall j :: 0 <= j < i ==> info[j].target != d
    ensures ParentEnd(info, d) == if i < |info| then OwnEnd(info[i]) else None
    ensures Erased(info, d) == if i < |info| then info[..i] + info[i + 1..] else info
  {
    hide ParentEnd, Erased;
    FirstEntry(info, d);
    if info != [] {
      if i == 0 {
        NotThere(info[1..], d);
        assert info[..0] + info[1..] == info[1..];
      } else {
        Located(info[1..], i - 1, d);
        WithoutOne(info, i);
      }
    }
  }

  lemma FirstEntry(es: seq<Entry>, d: nat)
    ensures es == [] ==> ParentEnd(es, d) == None && Erased(es, d) == []
    ensures es != [] && es[0].target == d ==> ParentEnd(es, d) == OwnEnd(es[0]) && Erased(es, d) == Erased(es[1..], d)
    ensures es != [] && es[0].target != d ==>
              ParentEnd(es, d) == ParentEnd(es[1..], d) && Erased(es, d) == [es[0]] + Erased(es[1..], d)
  {
    if es != [] {
      assert [] + Erased(es[1..], d) == Erased(es[1..], d);
    }
  }

  lemma WithoutOne(es: seq<Entry>, i: nat)
    requires 0 < i <= |es|
    ensures [es[0]] + es[1..] == es
    ensures i < |es| ==> [es[0]] + (es[1..][..i - 1] + es[1..][i..]) == es[..i] + es[i + 1..]
    ensures i < |es| ==> es[1..][i - 1] == es[i]
  {
    if i < |es| {
      assert es[1..][i..] == es[i + 1..] && [es[0]] + es[1..][..i - 1] == es[..i];
    }
  }

  lemma {:induction false} NotThere(es: seq<Entry>, d: nat)
    requires forall i :: 0 <= i < |es| ==> es[i].target != d
    ensures Erased(es, d) == es && ParentEnd(es, d) == None
  {
    if es != [] {
      NotThere(es[1..], d);
    }
  }

  lemma {:induction false} ErasedDistinct(es: seq<Entry>, d: nat)
    requires Distinct(es)
    ensures Distinct(Erased(es, d))
    ensures forall i :: 0 <= i < |Erased(es, d)| ==> Erased(es, d)[i] in es
  {
    if es != [] {
      var rest := Erased(es[1..], d);
      ErasedDistinct(es[1..], d);
      FirstDiffers(es);
      assert es[0].target == d ==> Erased(es, d) == rest;
      assert es[0].target != d ==> Erased(es, d) == [es[0]] + rest;
    }
  }

  lemma FirstDiffers(es: seq<Entry>)
    requires Distinct(es) && es != []
    ensures forall e :: e in es[1..] ==> e in es && e.target != es[0].target
  {
  }

  /** The streams that are not standard ones. */
  method Rest(info: seq<Entry>) returns (ends: map<nat, nat>)
    requires Distinct(info)
    ensures forall d :: Lookup(ends, d) == ParentEnd(info, d)
  {
    ends := map[];
    for i := 0 to |info|
      invariant forall d :: Lookup(ends, d) == ParentEnd(info[..i], d)
    {
      assert info[..i + 1] == info[..i] + [info[i]];
      forall d
        ensures ParentEnd(info[..i + 1], d) == if d == info[i].target then OwnEnd(info[i]) else ParentEnd(info[..i], d)
      {
        EndSnoc(info[..i], info[i], d);
      }
      ghost var before := ends;
      if info[i].source.UsePipe? {
        ends := ends[info[i].target := DroppedEnd(info[i])];
      }
      forall d
        ensures Lookup(ends, d) == ParentEnd(info[..i + 1], d)
      {
        assert Lookup(before, d) == ParentEnd(info[..i], d);
        if d == info[i].target {
          NotThere(info[..i], d);
        }
      }
    }
    assert info[..|info|] == info;
  }

  lemma {:induction false} EndSnoc(es: seq<Entry>, e: Entry, d: nat)
    requires forall i :: 0 <= i < |es| ==> es[i].target != e.target
    ensures ParentEnd(es + [e], d) == if d == e.target then OwnEnd(e) else ParentEnd(es, d)
  {
    if es == [] {
      assert es + [e] == [e];
    } else {
      EndSnoc(es[1..], e, d);
      assert (es + [e])[1..] == es[1..] + [e];
    }
  }

  // ---- posix_launch ----

  /** The entries so far before the entries of the rest. */
  function Behind(done: seq<Entry>, o: Option<(Fds, seq<Entry>)>): Option<(Fds, seq<Entry>)> {
    match o
    case None => None
    case Some((fds, es)) => Some((fds, done + es))
  }

  /** One of the two loops that fill the info maps; None if no pipe can be made. */
  method FillInfo(p: Process, bs: Behaviors, out: bool, next: nat) returns (info: Option<seq<Entry>>)
    modifies p
    ensures info.None? <==> Infos(old(p.fds), bs, out, p.limit, next).None?
    ensures info.Some? ==> Infos(old(p.fds), bs, out, p.limit, next) == Some((p.fds, info.value))
  {
    hide LowestFree, Piped;
    var es: seq<Entry>, id := [], next;
    NoneBehind(Infos(p.fds, bs, out, p.limit, id));
    for i := 0 to |bs|
      invariant Infos(old(p.fds), bs, out, p.limit, next) == Behind(es, Infos(p.fds, bs[i..], out, p.limit, id))
    {
      assert bs[i..][1..] == bs[i + 1..];
      var (d, b) := bs[i];
      if b.Capture? {
        match Piped(p.fds, p.limit, id) {
          case None => return None;
          case Some((fds, r, w)) =>
            OneBehind(es, Entry(d, UsePipe(r, w), out), Infos(fds, bs[i + 1..], out, p.limit, id + 1));
            p.fds := fds;
            es, id := es + [Entry(d, UsePipe(r, w), out)], id + 1;
        }
      } else if !b.Close? {
        OneBehind(es, Entry(d, Plain(b, out), out), Infos(p.fds, bs[i + 1..], out, p.limit, id));
        es := es + [Entry(d, Plain(b, out), out)];
      }
    }
    assert es + [] == es;
    info := Some(es);
  }

  lemma OneBehind(done: seq<Entry>, e: Entry, o: Option<(Fds, seq<Entry>)>)
    ensures Behind(done, Before(e, o)) == Behind(done + [e], o)
  {
    if o.Some? {
      assert done + ([e] + o.value.1) == done + [e] + o.value.1;
    }
  }

  lemma NoneBehind(o: Option<(Fds, seq<Entry>)>)
    ensures Behind([], o) == o
  {
    if o.Some? {
      assert [] + o.value.1 == o.value.1;
    }
  }

  function ChildEnds(es: seq<Entry>): set<nat> {
    set e <- es | e.source.UsePipe? :: KeptEnd(e)
  }

  /** The parent closes the ends that the child keeps. */
  method CloseChildEnds(p: Process, info: seq<Entry>)
    modifies p
    ensures p.fds == old(p.fds) - ChildEnds(info)
  {
    for i := 0 to |info|
      invariant p.fds == old(p.fds) - ChildEnds(info[..i])
    {
      assert info[..i + 1] == info[..i] + [info[i]];
      if info[i].source.UsePipe? {
        var _ := p.Close(KeptEnd(info[i]));
      }
    }
    assert info[..|info|] == info;
  }

  /** What a launch leaves: the child is there, or it ended, or no pipe could be made. */
  datatype Launched = NoPipe | ChildEnded | Started(child: Process, streams: PosixChild)

  /** posix_launch and posix_start: what both processes hold in the end. */
  method PosixLaunch(parent: Process, ins: Behaviors, outs: Behaviors, next: nat) returns (o: Launched)
    requires Launchable(ins, outs, parent.limit) && forall d :: d in parent.fds ==> d < parent.limit
    modifies parent
    ensures o.NoPipe? <==> BothInfos(old(parent.fds), ins, outs, parent.limit, next).None?
    ensures !o.NoPipe? ==>
              var (all, infoin, infoout) := BothInfos(old(parent.fds), ins, outs, parent.limit, next).value;
              var child := Child(all, infoin, infoout, parent.disk, parent.limit);
              && parent.fds == all - ChildEnds(infoin) - ChildEnds(infoout) && (o.Started? <==> child.Some?)
              && (o.Started? ==>
                    && o.child.fds == child.value
                    && (forall d :: o.streams.Input(d) == ParentEnd(infoin, d))
                    && (forall d :: o.streams.Output(d) == ParentEnd(infoout, d)))
  {
    hide Open, Child, Infos, EntryOf, Fresh;
    var infoin := FillInfo(parent, ins, false, next);
    if infoin.None? {
      return NoPipe;
    }
    var infoout := FillInfo(parent, outs, true, next + |ins|);
    if infoout.None? {
      return NoPipe;
    }
    LaunchShape(old(parent.fds), ins, outs, parent.limit, next);
    var child := new Process(parent.fds, parent.disk, parent.limit);
    var started := child.BecomeChild(infoin.value, infoout.value);
    CloseChildEnds(parent, infoin.value);
    CloseChildEnds(parent, infoout.value);
    if !started {
      return ChildEnded;
    }
    var streams := new PosixChild(infoin.value, infoout.value);
    o := Started(child, streams);
  }

  lemma LaunchShape(fds: Fds, ins: Behaviors, outs: Behaviors, limit: nat, next: nat)
    requires BothInfos(fds, ins, outs, limit, next).Some? && forall d :: d in fds ==> d < limit
    requires Launchable(ins, outs, limit)
    ensures var (all, infoin, infoout) := BothInfos(fds, ins, outs, limit, next).value;
            && FitsFlags(infoin, false, limit) && FitsFlags(infoout, true, limit)
            && Distinct(infoin) && Distinct(infoout)
  {
    hide BothInfos, Open, LowestFree;
    BothAre(fds, ins, outs, limit, next);
    OpenFrom(ins);
    OpenFrom(outs);
    var (all, infoin, infoout) := BothInfos(fds, ins, outs, limit, next).value;
    forall i | 0 <= i < |infoin|
      ensures infoin[i].target == Open(ins)[i].0 < limit && !infoin[i].out && !infoin[i].source.Redirect?
    {
      assert EntryOf(infoin[i], Open(ins)[i], false);
      assert Open(ins)[i] in ins;
    }
    forall i | 0 <= i < |infoout|
      ensures infoout[i].target == Open(outs)[i].0 < limit && infoout[i].out
    {
      assert EntryOf(infoout[i], Open(outs)[i], true);
      assert Open(outs)[i] in outs;
    }
  }

  lemma {:induction false} OpenFrom(bs: Behaviors)
    ensures forall i :: 0 <= i < |Open(bs)| ==> Open(bs)[i] in bs
    ensures (forall i, j :: 0 <= i < j < |bs| ==> bs[i].0 != bs[j].0) ==>
              forall i, j :: 0 <= i < j < |Open(bs)| ==> Open(bs)[i].0 != Open(bs)[j].0
  {
    if bs != [] {
      OpenFrom(bs[1..]);
    }
  }

  /**
   * The parent has what it had, and of every pipe the end that the child drops, each in one
   * stream; and if the child has what was meant, it has the opposite end at the stream's target.
   */
  lemma LaunchConnects(fds: Fds, ins: Behaviors, outs: Behaviors, disk: set<string>, limit: nat, next: nat)
    requires BothInfos(fds, ins, outs, limit, next).Some? && forall d :: d in fds ==> d < limit
    requires Launchable(ins, outs, limit)
    ensures var (all, infoin, infoout) := BothInfos(fds, ins, outs, limit, next).value;
            var es, child := infoin + infoout, Child(all, infoin, infoout, disk, limit);
            var parent := all - ChildEnds(infoin) - ChildEnds(infoout);
            && (forall d :: d in fds ==> d in parent && parent[d] == fds[d])
            && (forall d :: d in parent <==> d in fds || exists i :: 0 <= i < |es| && OwnEnd(es[i]) == Some(d))
            && (forall i :: 0 <= i < |es| && es[i].source.UsePipe? ==>
                  && ParentEnd(if es[i].out then infoout else infoin, es[i].target) == Some(DroppedEnd(es[i]))
                  && (forall j :: 0 <= j < |es| && j != i ==> OwnEnd(es[j]) != OwnEnd(es[i]))
                  && (Meaningful(fds, Streams(ins, outs)) && !Clashes(fds, Streams(ins, outs), limit) && child.Some? ==>
                        && es[i].target in child.value && DroppedEnd(es[i]) in parent
                        && Opposite(child.value[es[i].target], parent[DroppedEnd(es[i])], es[i].out)))
  {
    hide BothInfos, Open, Child, Fresh, EntryOf, EntriesOf, Launchable, Clashes, Meaningful, Proper;
    BothAre(fds, ins, outs, limit, next);
    LaunchShape(fds, ins, outs, limit, next);
    var (all, infoin, infoout) := BothInfos(fds, ins, outs, limit, next).value;
    ParentTable(fds, all, infoin, infoout);
    var es := infoin + infoout;
    forall i | 0 <= i < |es| && es[i].source.UsePipe?
      ensures ParentEnd(if es[i].out then infoout else infoin, es[i].target) == Some(DroppedEnd(es[i]))
    {
      if i < |infoin| {
        EndAt(infoin, i);
      } else {
        EndAt(infoout, i - |infoin|);
      }
    }
    if Meaningful(fds, Streams(ins, outs)) && !Clashes(fds, Streams(ins, outs), limit)
      && Child(all, infoin, infoout, disk, limit).Some? {
      LaunchExactly(fds, ins, outs, disk, limit, next);
      ProperSays(fds, all, infoin, infoout, limit);
      PipesOpposite(fds, all, es);
    }
  }

  lemma ProperSays(orig: Fds, fds: Fds, ins: seq<Entry>, outs: seq<Entry>, limit: nat)
    requires Proper(orig, fds, ins, outs, limit)
    ensures AllReady(orig, fds, ins + outs) && RedirectsEnd(orig, ins + outs)
  {
  }

  lemma {:induction false} EndAt(es: seq<Entry>, i: nat)
    requires Distinct(es) && i < |es|
    ensures ParentEnd(es, es[i].target) == OwnEnd(es[i])
  {
    if i > 0 {
      EndAt(es[1..], i - 1);
    }
  }

  lemma ChildEndsAre(a: seq<Entry>, b: seq<Entry>)
    ensures ChildEnds(a + b) == ChildEnds(a) + ChildEnds(b)
  {
    forall e | e in a || e in b
      ensures e in a + b
    {
    }
  }

  /** An end is kept by one of the two processes. */
  lemma EndOfOne(fds: Fds, all: Fds, es: seq<Entry>, i: nat)
    requires Fresh(fds, all, es) && i < |es| && es[i].source.UsePipe?
    ensures DroppedEnd(es[i]) in all && DroppedEnd(es[i]) !in ChildEnds(es) && DroppedEnd(es[i]) !in fds
    ensures forall j :: 0 <= j < |es| && i != j ==> OwnEnd(es[j]) != OwnEnd(es[i])
  {
    assert DroppedEnd(es[i]) in Held(es[i]);
    forall j | 0 <= j < |es| && es[j].source.UsePipe?
      ensures DroppedEnd(es[i]) != KeptEnd(es[j]) && (i != j ==> DroppedEnd(es[j]) != DroppedEnd(es[i]))
    {
      assert i != j ==> Held(es[i]) !! Held(es[j]);
      assert KeptEnd(es[j]) in Held(es[j]) && DroppedEnd(es[j]) in Held(es[j]);
    }
  }

  lemma OldStays(fds: Fds, all: Fds, es: seq<Entry>)
    requires Fresh(fds, all, es)
    ensures forall d :: d in fds ==> d in all && d !in ChildEnds(es) && all[d] == fds[d]
    ensures forall d :: d in all && d !in fds && d !in ChildEnds(es) ==> exists i :: 0 <= i < |es| && OwnEnd(es[i]) == Some(d)
  {
    forall i | 0 <= i < |es| && es[i].source.UsePipe?
      ensures KeptEnd(es[i]) !in fds
    {
      assert KeptEnd(es[i]) in Held(es[i]);
    }
    forall d | d in all && d !in fds && d !in ChildEnds(es)
      ensures exists i :: 0 <= i < |es| && OwnEnd(es[i]) == Some(d)
    {
      var i :| 0 <= i < |es| && d in Held(es[i]);
      assert es[i] in es && OwnEnd(es[i]) == Some(d);
    }
  }

  lemma ParentTable(fds: Fds, all: Fds, infoin: seq<Entry>, infoout: seq<Entry>)
    requires Fresh(fds, all, infoin + infoout)
    ensures var parent, es := all - ChildEnds(infoin) - ChildEnds(infoout), infoin + infoout;
            && (forall d :: d in fds ==> d in parent && parent[d] == fds[d])
            && (forall d :: d in parent <==> d in fds || exists i :: 0 <= i < |es| && OwnEnd(es[i]) == Some(d))
            && (forall i, j :: 0 <= i < |es| && 0 <= j < |es| && i != j && es[i].source.UsePipe? ==>
                  OwnEnd(es[j]) != OwnEnd(es[i]))
            && (forall i :: 0 <= i < |es| && es[i].source.UsePipe? ==> DroppedEnd(es[i]) in parent)
  {
    hide Fresh, ChildEnds;
    var es := infoin + infoout;
    ChildEndsAre(infoin, infoout);
    OldStays(fds, all, es);
    forall i | 0 <= i < |es| && es[i].source.UsePipe?
      ensures DroppedEnd(es[i]) in all && DroppedEnd(es[i]) !in ChildEnds(es)
      ensures forall j :: 0 <= j < |es| && i != j ==> OwnEnd(es[j]) != OwnEnd(es[i])
    {
      EndOfOne(fds, all, es, i);
    }
  }

  lemma PipesOpposite(fds: Fds, all: Fds, es: seq<Entry>)
    requires Fresh(fds, all, es) && AllReady(fds, all, es) && RedirectsEnd(fds, es)
    ensures forall i :: 0 <= i < |es| && es[i].source.UsePipe? ==>
              && DroppedEnd(es[i]) in all && Opposite(Meant(fds, all, es, i), all[DroppedEnd(es[i])], es[i].out)
  {
  }

  /** The child has the end that a stream of its kind needs, and the parent the other one. */
  predicate Opposite(childs: File, parents: File, out: bool) {
    if out then parents.ReadEnd? && childs == WriteEnd(parents.pipe)
    else childs.ReadEnd? && parents == WriteEnd(childs.pipe)
  }
}

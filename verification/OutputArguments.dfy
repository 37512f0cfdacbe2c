/**
 * The outputs of a worker as program arguments: the service prints them, one argument
 * "name:address,address" for each target, and the worker's program parses them back.
 */
module OutputArguments {
  import opened Results
  import opened Text

  /** For each target of an output, the addresses to connect to. */
  type Wires = seq<seq<string>>

  // ---- printing ----

  function Argument(name: string, addresses: seq<string>): string {
    name + [':'] + Join(addresses, ',')
  }

  /** An argument, written out. */
  lemma ArgumentText(name: string, a: string, b: string)
    ensures Argument(name, [a]) == name + ":" + a && Argument(name, [a, b]) == name + ":" + a + "," + b
  {
    assert [a, b][1..] == [b] && Join([b], ',') == b;
    assert name + [':'] + (a + [','] + b) == name + ":" + a + "," + b;
  }

  function ArgumentsOf(name: string, wires: Wires): seq<string> {
    seq(|wires|, i requires 0 <= i < |wires| => Argument(name, wires[i]))
  }

  function Arguments(es: seq<(string, Wires)>): seq<string> {
    if es == [] then [] else ArgumentsOf(es[0].0, es[0].1) + Arguments(es[1..])
  }

  /** The entries of the map, each once. */
  ghost predicate Lists(es: seq<(string, Wires)>, outputs: map<string, Wires>) {
    && (forall i, j :: 0 <= i < j < |es| ==> es[i].0 != es[j].0)
    && (forall i :: 0 <= i < |es| ==> es[i].0 in outputs && outputs[es[i].0] == es[i].1)
    && (forall n :: n in outputs ==> exists i :: 0 <= i < |es| && es[i].0 == n)
  }

  /** The arguments of all entries, in some order of the names. */
  ghost predicate Printed(args: seq<string>, outputs: map<string, Wires>) {
    exists es :: Lists(es, outputs) && args == Arguments(es)
  }

  lemma {:induction false} ArgumentsSnoc(es: seq<(string, Wires)>, e: (string, Wires))
    ensures Arguments(es + [e]) == Arguments(es) + ArgumentsOf(e.0, e.1)
  {
    if es == [] {
      assert es + [e] == [e];
    } else {
      ArgumentsSnoc(es[1..], e);
      assert (es + [e])[1..] == es[1..] + [e];
    }
  }

  lemma {:induction false} JoinSnoc(parts: seq<string>, p: string, c: char)
    ensures Join(parts + [p], c) == if parts == [] then p else Join(parts, c) + [c] + p
  {
    if |parts| >= 1 {
      assert (parts + [p])[1..] == parts[1..] + [p];
      if |parts| > 1 {
        JoinSnoc(parts[1..], p, c);
        assert parts[0] + [c] + (Join(parts[1..], c) + [c] + p) == parts[0] + [c] + Join(parts[1..], c) + [c] + p;
      }
    }
  }

  /** The innermost loop of python_process::init_process: one argument. */
  method PrintArgument(name: string, addresses: seq<string>) returns (outs: string)
    ensures outs == Argument(name, addresses)
  {
    hide Join;
    outs := name + ":";
    var sep := "";
    assert Join([], ',') == "" by { JoinEmpty(); }
    for k := 0 to |addresses|
      invariant outs == name + [':'] + Join(addresses[..k], ',')
      invariant sep == if k == 0 then "" else ","
    {
      assert addresses[..k + 1] == addresses[..k] + [addresses[k]];
      JoinSnoc(addresses[..k], addresses[k], ',');
      outs := outs + sep;
      outs := outs + addresses[k];
      sep := ",";
    }
    assert addresses[..|addresses|] == addresses;
  }

  lemma JoinEmpty()
    ensures Join([], ',') == ""
  {
  }

  /** The loops around it; the names come in an order that nothing below depends on. */
  method PrintOutputs(outputs: map<string, Wires>) returns (args: seq<string>)
    ensures Printed(args, outputs)
  {
    hide Argument;
    ghost var es: seq<(string, Wires)> := [];
    args := [];
    var names := outputs.Keys;
    while names != {}
      invariant names <= outputs.Keys && args == Arguments(es)
      invariant Lists(es, map n | n in outputs && n !in names :: outputs[n])
    {
      var name :| name in names;
      var printed: seq<string> := [];
      for j := 0 to |outputs[name]|
        invariant printed == ArgumentsOf(name, outputs[name])[..j]
      {
        var outs := PrintArgument(name, outputs[name][j]);
        printed := printed + [outs];
      }
      ArgumentsSnoc(es, (name, outputs[name]));
      ListsMore(es, outputs, names, name);
      args, es, names := args + printed, es + [(name, outputs[name])], names - {name};
    }
    assert outputs == map n | n in outputs && n !in names :: outputs[n];
  }

  lemma ListsMore(es: seq<(string, Wires)>, outputs: map<string, Wires>, names: set<string>, name: string)
    requires names <= outputs.Keys && name in names
    requires Lists(es, map n | n in outputs && n !in names :: outputs[n])
    ensures Lists(es + [(name, outputs[name])], map n | n in outputs && n !in names - {name} :: outputs[n])
  {
    var all := es + [(name, outputs[name])];
    forall n | n in outputs && n !in names - {name}
      ensures exists i :: 0 <= i < |all| && all[i].0 == n
    {
      if n == name {
        assert all[|es|] == (n, outputs[n]);
      } else {
        assert n in (map n | n in outputs && n !in names :: outputs[n]);
        var i :| 0 <= i < |es| && es[i].0 == n;
        assert all[i].0 == n;
      }
    }
  }

  // ---- parsing ----

  predicate HasName(arg: string) {
    Find(arg, ':', 0) < |arg|
  }

  function NameOf(arg: string): string {
    arg[..Find(arg, ':', 0)]
  }

  function AddressesOf(arg: string): seq<string>
    requires HasName(arg)
  {
    Split(arg[Find(arg, ':', 0) + 1..], ',')
  }

  /** The sockets that the arguments open for a name, each with its connections. */
  function Sockets(args: seq<string>, name: string): Wires
    requires forall i :: 0 <= i < |args| ==> HasName(args[i])
  {
    if args == [] then []
    else (if NameOf(args[0]) == name then [AddressesOf(args[0])] else []) + Sockets(args[1..], name)
  }

  function Names(args: seq<string>): set<string> {
    set i | 0 <= i < |args| :: NameOf(args[i])
  }

  ghost predicate AllNamed(args: seq<string>) {
    forall i :: 0 <= i < |args| ==> HasName(args[i])
  }

  /** What the arguments mean; None where the second piece of a split is missing. */
  ghost function Parsed(args: seq<string>): Option<map<string, Wires>> {
    if AllNamed(args) then Some(map n | n in Names(args) :: Sockets(args, n)) else None
  }

  /** parse_outputs: the dictionary is filled argument by argument. */
  method ParseOutputs(args: seq<string>) returns (sockets: Option<map<string, Wires>>)
    ensures sockets == Parsed(args)
  {
    hide NameOf, AddressesOf, HasName, Sockets, Names;
    var found: map<string, Wires> := map[];
    assert Names([]) == {} by { NoNames(); }
    for i := 0 to |args|
      invariant Parsed(args[..i]) == Some(found)
    {
      if !HasName(args[i]) {
        return None;
      }
      var name := NameOf(args[i]);
      var skt: seq<string> := [];
      var outs := AddressesOf(args[i]);
      for k := 0 to |outs|
        invariant skt == outs[..k]
      {
        skt := skt + [outs[k]];
      }
      assert outs[..|outs|] == outs;
      ParsedMore(args[..i], args[i]);
      assert args[..i + 1] == args[..i] + [args[i]];
      ghost var before := found;
      if name !in found {
        found := found[name := []];
      }
      found := found[name := found[name] + [skt]];
      assert found == before[name := (if name in before then before[name] else []) + [skt]];
    }
    assert args[..|args|] == args;
    sockets := Some(found);
  }

  lemma NoNames()
    ensures Names([]) == {}
  {
  }

  lemma ParsedMore(args: seq<string>, arg: string)
    requires AllNamed(args) && HasName(arg)
    ensures AllNamed(args + [arg])
    ensures var m, n := Parsed(args).value, NameOf(arg);
            Parsed(args + [arg]).value == m[n := (if n in m then m[n] else []) + [AddressesOf(arg)]]
  {
    hide NameOf, AddressesOf, HasName, Sockets, Names;
    MoreSockets(args, arg);
    NotYet(args, NameOf(arg));
    var m, n, more := Parsed(args).value, NameOf(arg), Parsed(args + [arg]).value;
    var expected := m[n := (if n in m then m[n] else []) + [AddressesOf(arg)]];
    assert more.Keys == expected.Keys;
    forall x | x in more
      ensures more[x] == expected[x]
    {
      assert more[x] == Sockets(args + [arg], x);
      assert x in m ==> m[x] == Sockets(args, x);
      assert x != n ==> Sockets(args, x) + [] == Sockets(args, x);
    }
  }

  lemma {:induction false} NotYet(args: seq<string>, name: string)
    requires AllNamed(args)
    ensures name !in Names(args) <==> Sockets(args, name) == []
  {
    if args != [] {
      NotYet(args[1..], name);
      assert forall i :: 1 <= i < |args| ==> args[i] == args[1..][i - 1];
      assert name in Names(args) <==> NameOf(args[0]) == name || name in Names(args[1..]);
    }
  }

  lemma {:induction false} SocketsOfBoth(a: seq<string>, b: seq<string>, name: string)
    requires AllNamed(a) && AllNamed(b)
    ensures AllNamed(a + b) && Sockets(a + b, name) == Sockets(a, name) + Sockets(b, name)
  {
    hide NameOf, AddressesOf, HasName, Sockets;
    if a == [] {
      NoSockets(name);
      assert a + b == b && [] + Sockets(b, name) == Sockets(b, name);
    } else {
      SocketsOfBoth(a[1..], b, name);
      FirstSocket(a, name);
      FirstSocket(a + b, name);
      assert (a + b)[1..] == a[1..] + b;
      var own := if NameOf(a[0]) == name then [AddressesOf(a[0])] else [];
      assert own + (Sockets(a[1..], name) + Sockets(b, name)) == own + Sockets(a[1..], name) + Sockets(b, name);
    }
  }

  lemma FirstSocket(args: seq<string>, name: string)
    requires AllNamed(args) && args != []
    ensures Sockets(args, name) ==
            (if NameOf(args[0]) == name then [AddressesOf(args[0])] else []) + Sockets(args[1..], name)
  {
  }

  lemma MoreSockets(args: seq<string>, arg: string)
    requires AllNamed(args) && HasName(arg)
    ensures AllNamed(args + [arg]) && Names(args + [arg]) == Names(args) + {NameOf(arg)}
    ensures forall n :: Sockets(args + [arg], n) == Sockets(args, n) + if n == NameOf(arg) then [AddressesOf(arg)] else []
  {
    var all := args + [arg];
    assert forall i :: 0 <= i < |args| ==> all[i] == args[i];
    assert all[|args|] == arg;
    forall n
      ensures Sockets(all, n) == Sockets(args, n) + if n == NameOf(arg) then [AddressesOf(arg)] else []
    {
      SocketsOfBoth(args, [arg], n);
      assert Sockets([arg][1..], n) == [];
    }
  }

  // ---- what the worker gets is what was printed ----

  /** What can be printed and parsed back. */
  ghost predicate Printable(outputs: map<string, Wires>) {
    forall n :: n in outputs ==>
      && Free(n, ':') && outputs[n] != []
      && forall i :: 0 <= i < |outputs[n]| ==> Separable(outputs[n][i])
  }

  ghost predicate Separable(addresses: seq<string>) {
    addresses != [] && forall k :: 0 <= k < |addresses| ==> Free(addresses[k], ',')
  }

  /** A list is printed and split back exactly when it has pieces and none has a comma. */
  lemma SplitJoinExactly(addresses: seq<string>)
    ensures Split(Join(addresses, ','), ',') == addresses <==> Separable(addresses)
  {
    if Separable(addresses) {
      SplitJoin(addresses, ',');
    }
    PiecesFree(Join(addresses, ','), ',', 0);
  }

  /** A comma in an address makes more pieces than there are addresses. */
  lemma {:induction false} PieceCount(parts: seq<string>)
    requires parts != []
    ensures |Split(Join(parts, ','), ',')| >= |parts|
    ensures |Split(Join(parts, ','), ',')| == |parts| <==> Separable(parts)
    decreases parts
  {
    hide Find;
    if |parts| == 1 {
      PiecesOfOne(parts[0]);
    } else {
      var rest := Join(parts[1..], ',');
      PieceCount(parts[1..]);
      PiecesOfTwo(parts[0], rest);
      assert forall k :: 1 <= k < |parts| ==> parts[k] == parts[1..][k - 1];
      assert forall k :: 0 <= k < |parts[1..]| ==> parts[1..][k] == parts[k + 1];
    }
  }

  lemma PiecesOfOne(s: string)
    ensures |Split(s, ',')| == 1 <==> Free(s, ',')
  {
    if Free(s, ',') {
      FindNone(s, ',', 0);
    }
  }

  lemma {:induction false} PiecesOfTwo(head: string, tail: string)
    ensures |Split(head + [','] + tail, ',')| == |Split(head, ',')| + |Split(tail, ',')|
    decreases head
  {
    var j := Find(head, ',', 0);
    if j == |head| {
      SplitFirst(head, tail, ',');
      SplitWhole(head, ',');
    } else {
      var piece, more := head[..j], head[j + 1..];
      assert head == piece + [','] + more;
      SplitFirst(piece, more, ',');
      assert head + [','] + tail == piece + [','] + (more + [','] + tail);
      SplitFirst(piece, more + [','] + tail, ',');
      PiecesOfTwo(more, tail);
    }
  }

  lemma ArgumentParts(name: string, addresses: seq<string>)
    ensures HasName(Argument(name, addresses)) && Free(NameOf(Argument(name, addresses)), ':')
    ensures Free(name, ':') ==>
              && NameOf(Argument(name, addresses)) == name
              && AddressesOf(Argument(name, addresses)) == Split(Join(addresses, ','), ',')
  {
    var arg := Argument(name, addresses);
    assert arg[|name|] == ':';
    if Free(name, ':') {
      FindIn(name, Join(addresses, ','), ':', 0);
      assert arg[|name| + 1..] == Join(addresses, ',');
    }
  }

  function Reread(wires: Wires): Wires {
    seq(|wires|, i requires 0 <= i < |wires| => Split(Join(wires[i], ','), ','))
  }

  lemma {:induction false} SocketsOfOne(name: string, wires: Wires, n: string)
    requires Free(name, ':')
    ensures AllNamed(ArgumentsOf(name, wires))
    ensures Sockets(ArgumentsOf(name, wires), n) == if n == name then Reread(wires) else []
  {
    hide Argument, NameOf, AddressesOf, HasName, Join, Split;
    if wires != [] {
      SocketsOfOne(name, wires[1..], n);
      ArgumentParts(name, wires[0]);
      assert ArgumentsOf(name, wires)[1..] == ArgumentsOf(name, wires[1..]);
      assert ArgumentsOf(name, wires) == [Argument(name, wires[0])] + ArgumentsOf(name, wires[1..]);
      assert Reread(wires) == [Split(Join(wires[0], ','), ',')] + Reread(wires[1..]);
    }
  }

  lemma {:induction false} SocketsOfAll(es: seq<(string, Wires)>, n: string)
    requires forall i :: 0 <= i < |es| ==> Free(es[i].0, ':')
    requires forall i, j :: 0 <= i < j < |es| ==> es[i].0 != es[j].0
    ensures AllNamed(Arguments(es))
    ensures forall i :: 0 <= i < |es| && es[i].0 == n ==> Sockets(Arguments(es), n) == Reread(es[i].1)
    ensures (forall i :: 0 <= i < |es| ==> es[i].0 != n) ==> Sockets(Arguments(es), n) == []
  {
    hide Reread, Sockets;
    if es == [] {
      NoSockets(n);
    } else {
      SocketsOfAll(es[1..], n);
      SocketsOfOne(es[0].0, es[0].1, n);
      SocketsOfBoth(ArgumentsOf(es[0].0, es[0].1), Arguments(es[1..]), n);
      assert forall i :: 1 <= i < |es| ==> es[i] == es[1..][i - 1];
    }
  }

  lemma NoSockets(n: string)
    ensures Sockets([], n) == []
  {
  }

  lemma {:induction false} PrintedNames(es: seq<(string, Wires)>)
    ensures AllNamed(Arguments(es)) && forall n :: n in Names(Arguments(es)) ==> Free(n, ':')
  {
    hide Argument, NameOf;
    if es != [] {
      PrintedNames(es[1..]);
      var args, rest := ArgumentsOf(es[0].0, es[0].1), Arguments(es[1..]);
      forall i | 0 <= i < |args + rest|
        ensures HasName((args + rest)[i]) && Free(NameOf((args + rest)[i]), ':')
      {
        if i < |args| {
          ArgumentParts(es[0].0, es[0].1[i]);
        } else {
          assert (args + rest)[i] == rest[i - |args|];
        }
      }
    }
  }

  /** What is parsed when no name has a colon, whatever the addresses are. */
  lemma ParsedIs(es: seq<(string, Wires)>, outputs: map<string, Wires>)
    requires Lists(es, outputs) && forall n :: n in outputs ==> Free(n, ':')
    ensures Parsed(Arguments(es)).Some?
    ensures var parsed := Parsed(Arguments(es)).value;
            forall n :: (n in parsed <==> n in outputs && outputs[n] != [])
                        && (n in parsed ==> parsed[n] == Reread(outputs[n]))
  {
    hide Arguments, Sockets, NameOf;
    PrintedNames(es);
    forall n
      ensures var parsed := Parsed(Arguments(es)).value;
              (n in parsed <==> n in outputs && outputs[n] != []) && (n in parsed ==> parsed[n] == Reread(outputs[n]))
    {
      SocketsOfAll(es, n);
      NotYet(Arguments(es), n);
    }
  }

  /** The round trip holds exactly for the outputs that are printable. */
  lemma PrintedIsParsed(es: seq<(string, Wires)>, outputs: map<string, Wires>)
    requires Lists(es, outputs)
    ensures Parsed(Arguments(es)) == Some(outputs) <==> Printable(outputs)
  {
    hide Arguments, Sockets, NameOf;
    PrintedNames(es);
    var args := Arguments(es);
    if forall n :: n in outputs ==> Free(n, ':') {
      var parsed := Parsed(args).value;
      ParsedIs(es, outputs);
      forall n | n in outputs
        ensures Reread(outputs[n]) == outputs[n] <==> forall i :: 0 <= i < |outputs[n]| ==> Separable(outputs[n][i])
      {
        RereadExactly(outputs[n]);
      }
      if Printable(outputs) {
        assert parsed.Keys == outputs.Keys;
        assert forall n :: n in parsed ==> parsed[n] == outputs[n];
      }
      if parsed == outputs {
        forall n | n in outputs
          ensures outputs[n] != [] && forall i :: 0 <= i < |outputs[n]| ==> Separable(outputs[n][i])
        {
          assert n in parsed;
        }
      }
    } else {
      var n :| n in outputs && !Free(n, ':');
      assert n !in Names(args);
      assert n !in Parsed(args).value;
    }
  }

  lemma RereadExactly(wires: Wires)
    ensures Reread(wires) == wires <==> forall i :: 0 <= i < |wires| ==> Separable(wires[i])
    ensures Reread(wires) == [] <==> wires == []
  {
    hide Join, Split, Separable;
    forall i | 0 <= i < |wires|
      ensures Split(Join(wires[i], ','), ',') == wires[i] <==> Separable(wires[i])
    {
      SplitJoinExactly(wires[i]);
    }
    if Reread(wires) == wires {
      forall i | 0 <= i < |wires| ensures Separable(wires[i]) {
        assert Reread(wires)[i] == wires[i];
      }
    }
  }
}

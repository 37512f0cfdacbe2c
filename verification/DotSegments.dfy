/**
 * Request paths and the served directory: dots are resolved before the file system is asked,
 * and what is left stays under the directory.
 */
module DotSegments {
  import opened Results
  import opened Text

  /** The names of a relative path, outermost first. */
  type Names = seq<string>

  function Last(names: Names): Names
    requires names != []
  {
    names[..|names| - 1]
  }

  /** What one piece between slashes does to the path so far; None where the code throws. */
  function Resolved(names: Names, piece: string): Option<Names> {
    if piece == "." then Some(names)
    else if piece == ".." then if names == [] then None else Some(Last(names))
    else if piece == "" then Some(names)
    else Some(names + [piece])
  }

  function ResolvedAll(names: Names, pieces: seq<string>): Option<Names>
    decreases pieces
  {
    if pieces == [] then Some(names)
    else
      match Resolved(names, pieces[0])
      case None => None
      case Some(next) => ResolvedAll(next, pieces[1..])
  }

  /** resolve_dots_or_throw_not_found; appending an empty piece changes nothing. */
  method ResolveDots(path: string) returns (r: Option<Names>)
    ensures r == ResolvedAll([], Split(path, '/'))
  {
    var pieces, names: Names := Split(path, '/'), [];
    for i := 0 to |pieces|
      invariant ResolvedAll([], pieces) == ResolvedAll(names, pieces[i..])
    {
      assert pieces[i..][1..] == pieces[i + 1..];
      if pieces[i] == "." {
        continue;
      }
      if pieces[i] == ".." {
        if names == [] {
          return None;
        }
        names := names[..|names| - 1];
      } else if pieces[i] != "" {
        names := names + [pieces[i]];
      }
    }
    r := Some(names);
  }

  /** path_contains_file: component by component, as far as the directory goes. */
  method PathContainsFile(dir: seq<string>, file: seq<string>) returns (r: bool)
    ensures r <==> exists rest :: file == dir + rest
  {
    if |dir| > |file| {
      return false;
    }
    for i := 0 to |dir|
      invariant dir[..i] == file[..i]
    {
      if dir[i] != file[i] {
        return false;
      }
    }
    assert file == dir + file[|dir|..];
    r := true;
  }

  // ---- when a path is refused ----

  predicate IsName(piece: string) {
    piece != "" && piece != "." && piece != ".."
  }

  function Ups(pieces: seq<string>): nat {
    if pieces == [] then 0 else Ups(pieces[..|pieces| - 1]) + if pieces[|pieces| - 1] == ".." then 1 else 0
  }

  function Downs(pieces: seq<string>): nat {
    if pieces == [] then 0 else Downs(pieces[..|pieces| - 1]) + if IsName(pieces[|pieces| - 1]) then 1 else 0
  }

  ghost predicate Escapes(pieces: seq<string>, k: nat) {
    k <= |pieces| && Ups(pieces[..k]) > Downs(pieces[..k])
  }

  lemma {:induction false} OnePieceMore(names: Names, pieces: seq<string>, piece: string)
    ensures ResolvedAll(names, pieces + [piece]) ==
            match ResolvedAll(names, pieces)
            case None => None
            case Some(next) => Resolved(next, piece)
    decreases pieces
  {
    if pieces == [] {
      assert pieces + [piece] == [piece];
      assert [piece][1..] == [];
    } else {
      assert (pieces + [piece])[1..] == pieces[1..] + [piece];
      match Resolved(names, pieces[0])
      case None =>
      case Some(next) => OnePieceMore(next, pieces[1..], piece);
    }
  }

  /** A path is refused exactly if some part from its start has more ".." than names. */
  lemma {:induction false} RefusedIfEscapes(pieces: seq<string>)
    ensures ResolvedAll([], pieces).None? <==> exists k: nat :: Escapes(pieces, k)
    ensures ResolvedAll([], pieces).Some? ==>
              && |ResolvedAll([], pieces).value| == Downs(pieces) - Ups(pieces)
              && forall i :: 0 <= i < |ResolvedAll([], pieces).value| ==>
                   IsName(ResolvedAll([], pieces).value[i]) && ResolvedAll([], pieces).value[i] in pieces
    decreases |pieces|
  {
    hide ResolvedAll, Escapes, Ups, Downs;
    if pieces == [] {
      NothingEscapes();
    } else {
      var n := |pieces| - 1;
      var before, piece := pieces[..n], pieces[n];
      assert pieces == before + [piece];
      RefusedIfEscapes(before);
      OnePieceMore([], before, piece);
      CountsMore(before, piece);
      EscapesMore(before, piece);
      if ResolvedAll([], before).Some? {
        OneStep(ResolvedAll([], before).value, piece, before);
      }
    }
  }

  lemma NothingEscapes()
    ensures forall k: nat :: !Escapes([], k)
    ensures ResolvedAll([], []) == Some([]) && Ups([]) == Downs([]) == 0
  {
  }

  lemma CountsMore(pieces: seq<string>, piece: string)
    ensures Ups(pieces + [piece]) == Ups(pieces) + if piece == ".." then 1 else 0
    ensures Downs(pieces + [piece]) == Downs(pieces) + if IsName(piece) then 1 else 0
  {
    var more := pieces + [piece];
    assert more[..|more| - 1] == pieces && more[|more| - 1] == piece;
  }

  lemma EscapesMore(pieces: seq<string>, piece: string)
    ensures (exists k: nat :: Escapes(pieces + [piece], k)) <==>
              (exists k: nat :: Escapes(pieces, k)) || Ups(pieces + [piece]) > Downs(pieces + [piece])
  {
    hide Ups, Downs;
    var more := pieces + [piece];
    forall k: nat
      ensures Escapes(more, k) <==> if k <= |pieces| then Escapes(pieces, k) else k == |more| && Ups(more) > Downs(more)
    {
      if k <= |pieces| {
        assert more[..k] == pieces[..k];
      } else if k == |more| {
        assert more[..k] == more;
      }
    }
    if Ups(more) > Downs(more) {
      assert Escapes(more, |more|);
    }
  }

  /** One piece more or less in the names. */
  lemma OneStep(names: Names, piece: string, pieces: seq<string>)
    requires forall i :: 0 <= i < |names| ==> IsName(names[i]) && names[i] in pieces
    ensures Resolved(names, piece).None? <==> piece == ".." && names == []
    ensures Resolved(names, piece).Some? ==>
              var r := Resolved(names, piece).value;
              && |r| == |names| + (if IsName(piece) then 1 else 0) - (if piece == ".." then 1 else 0)
              && forall i :: 0 <= i < |r| ==> IsName(r[i]) && r[i] in pieces + [piece]
  {
  }

  /**
   * The file of a request, among those that exist: found exactly if the path is not refused and
   * the file exists; that the file might be outside of the directory never decides.
   */
  method LocateFile(root: seq<string>, path: string, existing: set<seq<string>>) returns (file: Option<seq<string>>)
    ensures (exists k: nat :: Escapes(Split(path, '/'), k)) ==> file.None?
    ensures (forall k: nat :: !Escapes(Split(path, '/'), k)) ==>
              && ResolvedAll([], Split(path, '/')).Some?
              && var inside := root + ResolvedAll([], Split(path, '/')).value;
                 file == if inside in existing then Some(inside) else None
  {
    RefusedIfEscapes(Split(path, '/'));
    var names := ResolveDots(path);
    if names.None? {
      return None;
    }
    var canonical := root + names.value;
    var inside := PathContainsFile(root, canonical);
    if !inside || canonical !in existing {
      return None;
    }
    return Some(canonical);
  }

  // ---- the same place as a walk, step by step, through the directory tree ----

  datatype Node = Node(children: map<string, Node>)

  /** A place in a tree: the node, its name and the way back to the root. */
  datatype Place = Root(node: Node) | Under(parent: Place, name: string, node: Node)

  /** One step; None above the root, or where there is no such child. */
  function Walk(p: Place, piece: string): Option<Place> {
    if piece == "" || piece == "." then Some(p)
    else if piece == ".." then if p.Under? then Some(p.parent) else None
    else if piece in p.node.children then Some(Under(p, piece, p.node.children[piece]))
    else None
  }

  function WalkAll(p: Place, pieces: seq<string>): Option<Place>
    decreases pieces
  {
    if pieces == [] then Some(p)
    else
      match Walk(p, pieces[0])
      case None => None
      case Some(next) => WalkAll(next, pieces[1..])
  }

  /** The names on the way from the root. */
  function Way(p: Place): Names {
    if p.Root? then [] else Way(p.parent) + [p.name]
  }

  /** Every place below another is reached by its name. */
  predicate Sound(p: Place) {
    p.Under? ==> Sound(p.parent) && IsName(p.name) && p.name in p.parent.node.children && p.node == p.parent.node.children[p.name]
  }

  function Top(p: Place): Node {
    if p.Root? then p.node else Top(p.parent)
  }

  lemma {:induction false} SameStep(p: Place, pieces: seq<string>)
    requires Sound(p) && WalkAll(p, pieces).Some?
    ensures var q := WalkAll(p, pieces).value;
            Sound(q) && Top(q) == Top(p) && ResolvedAll(Way(p), pieces) == Some(Way(q))
    decreases pieces
  {
    if pieces != [] {
      var next := Walk(p, pieces[0]).value;
      assert Resolved(Way(p), pieces[0]) == Some(Way(next)) by {
        if pieces[0] == ".." {
          assert Way(p)[..|Way(p)| - 1] == Way(p.parent);
        }
      }
      SameStep(next, pieces[1..]);
    }
  }

  lemma {:induction false} WayLeads(p: Place)
    requires Sound(p)
    ensures WalkAll(Root(Top(p)), Way(p)) == Some(p)
  {
    if p.Under? {
      WayLeads(p.parent);
      WalkOneMore(Root(Top(p)), Way(p.parent), p.name);
    }
  }

  lemma {:induction false} WalkOneMore(p: Place, pieces: seq<string>, piece: string)
    ensures WalkAll(p, pieces + [piece]) ==
            match WalkAll(p, pieces)
            case None => None
            case Some(next) => Walk(next, piece)
    decreases pieces
  {
    if pieces == [] {
      assert pieces + [piece] == [piece];
      assert [piece][1..] == [];
    } else {
      assert (pieces + [piece])[1..] == pieces[1..] + [piece];
      match Walk(p, pieces[0])
      case None =>
      case Some(next) => WalkOneMore(next, pieces[1..], piece);
    }
  }

  /**
   * Where a walk through a directory tree gets to a place, the path is not refused, and its
   * resolved names lead straight from the root to the same place.
   */
  lemma SamePlace(tree: Node, pieces: seq<string>)
    requires WalkAll(Root(tree), pieces).Some?
    ensures ResolvedAll([], pieces).Some?
    ensures WalkAll(Root(tree), ResolvedAll([], pieces).value) == WalkAll(Root(tree), pieces)
  {
    SameStep(Root(tree), pieces);
    WayLeads(WalkAll(Root(tree), pieces).value);
  }

  /** Where it does not, and the path is not refused, a directory on the way is missing. */
  lemma {:induction false} OnlyMissing(p: Place, pieces: seq<string>)
    requires Sound(p) && ResolvedAll(Way(p), pieces).Some? && WalkAll(p, pieces).None?
    ensures exists k: nat, q: Place :: k < |pieces| && WalkAll(p, pieces[..k]) == Some(q)
              && IsName(pieces[k]) && pieces[k] !in q.node.children
    decreases pieces
  {
    match Walk(p, pieces[0])
    case None =>
      assert WalkAll(p, pieces[..0]) == Some(p);
    case Some(next) =>
      assert Resolved(Way(p), pieces[0]) == Some(Way(next)) by {
        if pieces[0] == ".." {
          assert Way(p)[..|Way(p)| - 1] == Way(p.parent);
        }
      }
      OnlyMissing(next, pieces[1..]);
      var k: nat, q: Place :| k < |pieces[1..]| && WalkAll(next, pieces[1..][..k]) == Some(q)
        && IsName(pieces[1..][k]) && pieces[1..][k] !in q.node.children;
      assert pieces[..k + 1][1..] == pieces[1..][..k];
      assert WalkAll(p, pieces[..k + 1]) == Some(q);
  }

  // ---- the result is in normal form, and under the root ----

  lemma {:induction false} NamesResolve(names: Names, more: Names)
    requires forall i :: 0 <= i < |more| ==> IsName(more[i])
    ensures ResolvedAll(names, more) == Some(names + more)
    decreases more
  {
    if more == [] {
      assert names + more == names;
    } else {
      NamesResolve(names + [more[0]], more[1..]);
      assert names + [more[0]] + more[1..] == names + more;
    }
  }

  /** The result of resolving, written as a path again, resolves to itself, and names no dots. */
  lemma NormalForm(path: string)
    requires ResolvedAll([], Split(path, '/')).Some?
    ensures var r := ResolvedAll([], Split(path, '/')).value;
            && (forall i :: 0 <= i < |r| ==> IsName(r[i]) && Free(r[i], '/'))
            && ResolvedAll([], Split(Join(r, '/'), '/')) == Some(r)
  {
    var pieces := Split(path, '/');
    var r := ResolvedAll([], pieces).value;
    RefusedIfEscapes(pieces);
    PiecesFree(path, '/', 0);
    if r == [] {
      SplitWhole("", '/');
      var none: Names := [];
      assert [""][1..] == none && ResolvedAll(none, [""]) == ResolvedAll(none, none);
    } else {
      SplitJoin(r, '/');
      NamesResolve([], r);
      assert [] + r == r;
    }
  }
}

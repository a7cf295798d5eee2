/** Unpacked layers against the layered view that the image format describes. */
module ImageLookup {
  import opened Wrappers
  import opened ImageLayers

  // ----- one layer, read without regard to order -----

  predicate FileAt(layer: Layer, p: Path) {
    exists e | e in layer :: e.AddFile? && e.path == p
  }

  function LastContent(layer: Layer, p: Path): string
    requires FileAt(layer, p)
  {
    var e := layer[|layer| - 1];
    if e.AddFile? && e.path == p then e.content
    else
      assert forall f | f in layer :: f == e || f in layer[..|layer| - 1];
      LastContent(layer[..|layer| - 1], p)
  }

  predicate ProvidesAny(layer: Layer, p: Path) {
    exists e | e in layer :: Provides(e, p)
  }

  predicate Hides(e: Entry, p: Path) {
    (e.Whiteout? && e.path <= p) || ((e.Opaque? || e.AddFile?) && e.path < p)
  }

  predicate HidesAny(layer: Layer, p: Path) {
    exists e | e in layer :: Hides(e, p)
  }

  /** What a layer as a whole says of a path: what it provides comes first; otherwise it
      hides the path by a whiteout of it or of something above it, by an opaque directory
      above it, or by a file where there was a directory. */
  function LayerVerdict(layer: Layer, p: Path): Option<Option<Node>> {
    if ProvidesAny(layer, p) then
      (if FileAt(layer, p) then Some(Some(File(LastContent(layer, p)))) else Some(Some(Dir)))
    else if HidesAny(layer, p) then Some(None)
    else None
  }

  /** From the topmost layer down, the first that says something decides. */
  function TopDown(layers: seq<Layer>, p: Path): Option<Node> {
    if layers == [] then None
    else
      match LayerVerdict(layers[|layers| - 1], p)
      case Some(x) => x
      case None => TopDown(layers[..|layers| - 1], p)
  }

  // ----- the order inside a layer -----

  predicate FilesAt(e: Entry, p: Path) {
    e.AddFile? && e.path == p
  }

  /** The order of a layer's entries agrees with the layer read as a whole, at one path: after
      an entry that hides the path comes one that provides it, if the layer provides it at
      all, and after one that makes it a directory comes the file, if the layer has a file
      there. */
  ghost predicate InOrder(layer: Layer, p: Path) {
    && (ProvidesAny(layer, p) ==>
          forall i | 0 <= i < |layer| && Hides(layer[i], p) :: exists j :: i < j < |layer| && Provides(layer[j], p))
    && (FileAt(layer, p) ==>
          forall i | 0 <= i < |layer| && Provides(layer[i], p) && !FilesAt(layer[i], p) ::
            exists j :: i < j < |layer| && FilesAt(layer[j], p))
  }

  // Once more what an entry says, by what it provides and hides.
  lemma VerdictIs(e: Entry, p: Path)
    ensures Provides(e, p) ==> Verdict(e, p) == Some(Some(if FilesAt(e, p) then File(e.content) else Dir))
    ensures Hides(e, p) ==> Verdict(e, p) == Some(None) && !Provides(e, p)
    ensures !Provides(e, p) && !Hides(e, p) ==> Verdict(e, p) == None
    ensures FilesAt(e, p) ==> Provides(e, p)
  {
  }

  lemma LastSilent(layer: Layer, p: Path)
    requires layer != [] && !Provides(layer[|layer| - 1], p) && !Hides(layer[|layer| - 1], p)
    ensures LayerVerdict(layer, p) == LayerVerdict(layer[..|layer| - 1], p)
    ensures InOrder(layer, p) <==> InOrder(layer[..|layer| - 1], p)
  {
    var n := |layer| - 1;
    assert layer == layer[..n] + [layer[n]];
    assert forall e :: e in layer <==> e in layer[..n] || e == layer[n];
  }

  /** A last entry that provides the path agrees with the layer exactly if it is a file there
      or the layer has none. */
  lemma LastProvides(layer: Layer, p: Path)
    requires layer != [] && Provides(layer[|layer| - 1], p)
    ensures LayerVerdict(layer, p) == Verdict(layer[|layer| - 1], p) <==> InOrder(layer, p)
  {
    var n := |layer| - 1;
    var e := layer[n];
    VerdictIs(e, p);
    assert e in layer;
    assert forall i | 0 <= i < |layer| && Hides(layer[i], p) :: i < n by {
      VerdictIs(layer[n], p);
    }
    if FilesAt(e, p) {
      assert FileAt(layer, p);
    } else if FileAt(layer, p) {
      assert !InOrder(layer, p);
    }
  }

  lemma LastHides(layer: Layer, p: Path)
    requires layer != [] && Hides(layer[|layer| - 1], p)
    ensures LayerVerdict(layer, p) == Some(None) <==> InOrder(layer, p)
  {
    var e := layer[|layer| - 1];
    VerdictIs(e, p);
    assert e in layer && HidesAny(layer, p);
    if FileAt(layer, p) {
      var f :| f in layer && f.AddFile? && f.path == p;
      assert Provides(f, p);
    }
  }

  /** The last entry to speak of a path says what the layer as a whole says of it exactly if
      the entries are in order at that path. */
  lemma {:induction false} OrderAt(layer: Layer, p: Path)
    ensures LayerVerdict(layer, p) == LastVerdict(layer, p) <==> InOrder(layer, p)
    ensures LayerVerdict(layer, p).Some? <==> LastVerdict(layer, p).Some?
    ensures LastVerdict(layer, p).Some? && LastVerdict(layer, p).value.Some? ==>
              LayerVerdict(layer, p).Some? && LayerVerdict(layer, p).value.Some?
  {
    if layer != [] {
      var n := |layer| - 1;
      VerdictIs(layer[n], p);
      assert layer[n] in layer;
      if Provides(layer[n], p) {
        LastProvides(layer, p);
        assert ProvidesAny(layer, p);
      } else if Hides(layer[n], p) {
        LastHides(layer, p);
        assert HidesAny(layer, p);
      } else {
        hide InOrder, LayerVerdict;
        OrderAt(layer[..n], p);
        LastSilent(layer, p);
      }
    }
  }

  predicate Offers(e: Entry) {
    e.AddDir? || e.AddFile? || e.Opaque?
  }

  /** A layer does not white out what it provides, puts nothing below a file of its own, and
      places an opaque marker before everything below it. */
  ghost predicate WellOrdered(layer: Layer) {
    && (forall e, f | e in layer && f in layer && e.Whiteout? && Offers(f) :: !(e.path <= f.path))
    && (forall e, f | e in layer && f in layer && e.AddFile? && Offers(f) && e.path <= f.path ::
        f.AddFile? && f.path == e.path)
    && (forall i, j | 0 <= i < |layer| && 0 <= j < |layer| && layer[i].Opaque? && Offers(layer[j]) &&
        layer[i].path < layer[j].path :: i < j)
  }

  /** A layer that keeps to the image format's rules is in order at every path. */
  lemma OrderDoesNotMatter(layer: Layer, p: Path)
    requires WellOrdered(layer)
    ensures InOrder(layer, p) && LayerVerdict(layer, p) == LastVerdict(layer, p)
  {
    forall i, j | 0 <= i < |layer| && 0 <= j < |layer| && Hides(layer[i], p) && Provides(layer[j], p) ensures i < j {
      assert layer[i] in layer && layer[j] in layer;
    }
    forall i, j | 0 <= i < |layer| && 0 <= j < |layer| && FilesAt(layer[i], p) && Provides(layer[j], p)
      ensures FilesAt(layer[j], p)
    {
      assert layer[i] in layer && layer[j] in layer;
    }
    OrderAt(layer, p);
    AnyIsAt(layer, p);
    hide FilesAt, Hides, Provides, FileAt, ProvidesAny, LayerVerdict, LastVerdict, WellOrdered;
  }

  lemma AnyIsAt(layer: Layer, p: Path)
    ensures ProvidesAny(layer, p) <==> exists i :: 0 <= i < |layer| && Provides(layer[i], p)
    ensures FileAt(layer, p) <==> exists i :: 0 <= i < |layer| && FilesAt(layer[i], p)
  {
    if ProvidesAny(layer, p) {
      var e :| e in layer && Provides(e, p);
      var i :| 0 <= i < |layer| && layer[i] == e;
    }
    if FileAt(layer, p) {
      var e :| e in layer && FilesAt(e, p);
      var i :| 0 <= i < |layer| && layer[i] == e;
    }
  }

  // ----- all layers -----

  function Concat(layers: seq<Layer>): Layer {
    if layers == [] then [] else Concat(layers[..|layers| - 1]) + layers[|layers| - 1]
  }

  lemma {:induction false} LastVerdictConcat(a: Layer, b: Layer, p: Path)
    ensures LastVerdict(a + b, p) == if LastVerdict(b, p).Some? then LastVerdict(b, p) else LastVerdict(a, p)
  {
    if b == [] {
      assert a + b == a;
    } else {
      var n := |b| - 1;
      assert (a + b)[..|a + b| - 1] == a + b[..n];
      assert (a + b)[|a + b| - 1] == b[n];
      LastVerdictConcat(a, b[..n], p);
    }
  }

  /** The topmost layer that says something of the path is in order there. */
  ghost predicate TopInOrder(layers: seq<Layer>, p: Path) {
    forall k | 0 <= k < |layers| && LayerVerdict(layers[k], p).Some? &&
        (forall j | k < j < |layers| :: LayerVerdict(layers[j], p).None?) :: InOrder(layers[k], p)
  }

  lemma TopNext(layers: seq<Layer>, p: Path)
    requires layers != []
    ensures var n := |layers| - 1;
            TopInOrder(layers, p) <==>
              if LayerVerdict(layers[n], p).Some? then InOrder(layers[n], p) else TopInOrder(layers[..n], p)
  {
    hide LayerVerdict, InOrder;
    var n := |layers| - 1;
    if LayerVerdict(layers[n], p).None? {
      if TopInOrder(layers[..n], p) {
        forall k | 0 <= k < |layers| && LayerVerdict(layers[k], p).Some? &&
            (forall j | k < j < |layers| :: LayerVerdict(layers[j], p).None?) ensures InOrder(layers[k], p)
        {
          assert layers[..n][k] == layers[k];
          assert forall j | k < j < n :: layers[..n][j] == layers[j];
        }
      }
      if TopInOrder(layers, p) {
        forall k | 0 <= k < n && LayerVerdict(layers[..n][k], p).Some? &&
            (forall j | k < j < n :: LayerVerdict(layers[..n][j], p).None?) ensures InOrder(layers[..n][k], p)
        {
          assert layers[..n][k] == layers[k];
          assert forall j | k < j < n :: layers[..n][j] == layers[j];
        }
      }
    }
  }

  /** The layered view is the last word of all entries exactly if the layer that decides is
      in order. */
  lemma {:induction false} TopDownIsLastVerdict(layers: seq<Layer>, p: Path)
    ensures TopDown(layers, p) == Shown(LastVerdict(Concat(layers), p)) <==> TopInOrder(layers, p)
    ensures Shown(LastVerdict(Concat(layers), p)).Some? ==> TopDown(layers, p).Some?
  {
    if layers != [] {
      var n := |layers| - 1;
      TopDownIsLastVerdict(layers[..n], p);
      TopNext(layers, p);
      OrderAt(layers[n], p);
      LastVerdictConcat(Concat(layers[..n]), layers[n], p);
      hide TopInOrder, InOrder, LayerVerdict, LastVerdict;
    }
  }

  /** Unpacking layers one after another leaves at a path exactly what the layered view shows
      there if and only if the path is not lost to a temporary name and the layer that decides
      is in order there. */
  lemma UnpackedIsLayeredView(layers: seq<Layer>, p: Path)
    requires (forall e | e in Concat(layers) :: Proper(e)) && ApplyAll(map[], Concat(layers)).Some? && p != []
    ensures At(ApplyAll(map[], Concat(layers)).value, p) == TopDown(layers, p) <==>
              !Loses(Concat(layers), p) && TopInOrder(layers, p)
    ensures (forall layer | layer in layers :: WellOrdered(layer)) ==> TopInOrder(layers, p)
  {
    hide ApplyAll, LastVerdict, Loses, WellOrdered, InOrder, LayerVerdict;
    UnpackedIsLastVerdict(Concat(layers), p);
    TopDownIsLastVerdict(layers, p);
    if Loses(Concat(layers), p) {
      LosesThere(Concat(layers), p);
    }
    if forall layer | layer in layers :: WellOrdered(layer) {
      forall k | 0 <= k < |layers| ensures InOrder(layers[k], p) {
        OrderDoesNotMatter(layers[k], p);
      }
    }
  }

  /** Out of order: a marker after a file empties the directory of the layer's own file. A
      whiteout before the file does no harm. */
  lemma LateMarkerEmpties(x: string)
    ensures var layer := [AddFile(["d", "f"], x), Opaque(["d"])];
            && !InOrder(layer, ["d", "f"]) && LayerVerdict(layer, ["d", "f"]) == Some(Some(File(x)))
            && LastVerdict(layer, ["d", "f"]) == Some(None)
    ensures forall p :: InOrder([Whiteout(["a"]), AddFile(["a"], x)], p)
  {
    var e, o := AddFile(["d", "f"], x), Opaque(["d"]);
    var layer := [e, o];
    assert ["d", "f"][..1] == ["d"];
    assert Hides(layer[1], ["d", "f"]);
    assert e in layer && Provides(e, ["d", "f"]) && FileAt(layer, ["d", "f"]);
    assert layer[..1] == [e];
    assert LastContent([e], ["d", "f"]) == x;
    var other := [Whiteout(["a"]), AddFile(["a"], x)];
    forall p ensures InOrder(other, p) {
      if ProvidesAny(other, p) {
        assert Provides(other[1], p);
      }
    }
  }

  // ----- the unpacker -----

  lemma {:induction false} ApplyAllConcat(t: Tree, a: Layer, b: Layer)
    requires forall e | e in a + b :: Proper(e)
    ensures forall e | e in a :: e in a + b
    ensures forall e | e in b :: e in a + b
    ensures ApplyAll(t, a + b) == (match ApplyAll(t, a) case None => None case Some(t1) => ApplyAll(t1, b))
  {
    assert forall e | e in a :: e in a + b;
    assert forall e | e in b :: e in a + b;
    if b == [] {
      assert a + b == a;
    } else {
      var n := |b| - 1;
      assert (a + b)[..|a + b| - 1] == a + b[..n];
      assert forall e | e in a + b[..n] :: e in a + b;
      ApplyAllConcat(t, a, b[..n]);
    }
  }

  /** What is left of a tree when of the directory's children only those names remain. */
  function ChildrenLeft(t: Tree, d: Path, names: set<string>): Tree {
    map p | p in t && !(d < p && p[|d|] !in names) :: t[p]
  }

  lemma AllChildren(t: Tree, d: Path, names: set<string>)
    requires names == set p | p in t && d < p :: p[|d|]
    ensures ChildrenLeft(t, d, names) == t
  {
  }

  lemma NoChildren(t: Tree, d: Path)
    ensures ChildrenLeft(t, d, {}) == EmptyDir(t, d)
  {
  }

  lemma RemoveChild(t: Tree, d: Path, names: set<string>, name: string)
    requires name in names
    ensures RemoveAll(ChildrenLeft(t, d, names), d + [name]) == ChildrenLeft(t, d, names - {name})
  {
    var a, b := RemoveAll(ChildrenLeft(t, d, names), d + [name]), ChildrenLeft(t, d, names - {name});
    forall p: Path ensures p in a <==> p in b {
      ChildPrefix(d, name, p);
    }
  }

  class RootFs {
    var tree: Tree

    constructor ()
      ensures tree == map[]
    {
      tree := map[];
    }

    /** Removes the directory's children one by one. */
    method RemoveAllChildren(d: Path) returns (ok: bool)
      modifies this
      ensures ok <==> MkdirAll(old(tree), d).Some?
      ensures ok ==> tree == EmptyDir(MkdirAll(old(tree), d).value, d)
    {
      var made := MkdirAll(tree, d);
      if made.None? {
        return false;
      }
      tree := made.value;
      ghost var start := tree;
      var names := set p | p in tree && d < p :: p[|d|];
      AllChildren(start, d, names);
      hide RemoveAll, ChildrenLeft;
      while names != {}
        invariant tree == ChildrenLeft(start, d, names)
      {
        var name :| name in names;
        RemoveChild(start, d, names, name);
        names := names - {name};
        tree := RemoveAll(tree, d + [name]);
      }
      NoChildren(start, d);
      return true;
    }

    method ApplyOne(e: Entry) returns (ok: bool)
      requires Proper(e)
      modifies this
      ensures ok <==> Apply(old(tree), e).Some?
      ensures ok ==> tree == Apply(old(tree), e).value
    {
      match e {
        case Escaping =>
          return false;
        case Opaque(d) =>
          ok := RemoveAllChildren(d);
        case Whiteout(p) =>
          tree := RemoveAll(tree, p);
          return true;
        case AddDir(p) =>
          var made := MkdirAll(tree, p);
          if made.None? {
            return false;
          }
          tree := made.value;
          return true;
        case AddFile(p, content) =>
          var made := MkdirAll(tree, p[..|p| - 1]);
          if made.None? || (Tmp(p) in made.value && made.value[Tmp(p)].Dir?) {
            return false;
          }
          tree := made.value[Tmp(p) := File(content)];
          tree := RemoveAll(tree, p);
          TmpApart(p);
          tree := tree[p := tree[Tmp(p)]] - {Tmp(p)};
          return true;
        case Special(p) =>
          return p[0] == "dev" && |p| > 1;
      }
    }

    /** Unpacks the layers from the lowest up. */
    method ApplyLayers(layers: seq<Layer>) returns (ok: bool)
      requires forall e | e in Concat(layers) :: Proper(e)
      modifies this
      ensures ok <==> ApplyAll(old(tree), Concat(layers)).Some?
      ensures ok ==> tree == ApplyAll(old(tree), Concat(layers)).value
      ensures old(tree) == map[] ==> (ok <==> Unpackable(Concat(layers)))
    {
      UnpacksExactly(Concat(layers));
      hide Unpackable;
      var i := 0;
      while i < |layers|
        invariant 0 <= i <= |layers|
        invariant forall e | e in Concat(layers[..i]) :: Proper(e)
        invariant ApplyAll(old(tree), Concat(layers[..i])) == Some(tree)
      {
        ConcatNext(layers, i);
        ok := ApplyLayer(layers[i]);
        ApplyAllConcat(old(tree), Concat(layers[..i]), layers[i]);
        if !ok {
          ConcatFails(old(tree), layers, i + 1);
          return false;
        }
        i := i + 1;
      }
      assert layers[..i] == layers;
      return true;
    }

    method ApplyLayer(layer: Layer) returns (ok: bool)
      requires forall e | e in layer :: Proper(e)
      modifies this
      ensures ok <==> ApplyAll(old(tree), layer).Some?
      ensures ok ==> tree == ApplyAll(old(tree), layer).value
    {
      hide Apply, Proper;
      var i := 0;
      while i < |layer|
        invariant 0 <= i <= |layer|
        invariant ApplyAll(old(tree), layer[..i]) == Some(tree)
      {
        assert layer[..i + 1][..i] == layer[..i];
        ok := ApplyOne(layer[i]);
        if !ok {
          FailureStays(old(tree), layer, i + 1);
          return false;
        }
        i := i + 1;
      }
      assert layer[..i] == layer;
      return true;
    }
  }

  lemma ChildPrefix(d: Path, name: string, p: Path)
    ensures d + [name] <= p <==> d < p && p[|d|] == name
  {
    if d < p && p[|d|] == name {
      assert p[..|d| + 1] == d + [name];
    }
    if d + [name] <= p {
      assert p[..|d|] == (d + [name])[..|d|] == d;
    }
  }

  lemma {:induction false} FailureStays(t: Tree, layer: Layer, n: nat)
    requires (forall e | e in layer :: Proper(e)) && n <= |layer| && ApplyAll(t, layer[..n]).None?
    ensures ApplyAll(t, layer).None?
    decreases |layer|
  {
    if n == |layer| {
      assert layer[..n] == layer;
    } else {
      assert layer[..|layer| - 1][..n] == layer[..n];
      FailureStays(t, layer[..|layer| - 1], n);
    }
  }

  lemma {:induction false} ConcatNext(layers: seq<Layer>, i: nat)
    requires i < |layers|
    ensures Concat(layers[..i + 1]) == Concat(layers[..i]) + layers[i]
    ensures forall e | e in Concat(layers[..i + 1]) :: e in Concat(layers)
    decreases |layers| - i
  {
    assert layers[..i + 1][..i] == layers[..i];
    if i + 1 == |layers| {
      assert layers[..i + 1] == layers;
    } else {
      ConcatNext(layers, i + 1);
    }
  }

  lemma {:induction false} ConcatFails(t: Tree, layers: seq<Layer>, i: nat)
    requires (forall e | e in Concat(layers) :: Proper(e)) && i <= |layers|
    requires forall e | e in Concat(layers[..i]) :: Proper(e)
    requires ApplyAll(t, Concat(layers[..i])).None?
    ensures ApplyAll(t, Concat(layers)).None?
    decreases |layers| - i
  {
    if i == |layers| {
      assert layers[..i] == layers;
    } else {
      ConcatNext(layers, i);
      ApplyAllConcat(t, Concat(layers[..i]), layers[i]);
      ConcatFails(t, layers, i + 1);
    }
  }
}

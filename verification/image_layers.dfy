/** Unpacking the layers of an image into a root directory, and what one sees there. */
module ImageLayers {
  import opened Wrappers

  type Path = seq<string>

  datatype Node = Dir | File(content: string)

  /** An entry of a layer archive, its name already split and cleaned. A whiteout carries the
      path that it removes, an opaque marker the directory that it empties. */
  datatype Entry =
    | AddDir(path: Path)
    | AddFile(path: Path, content: string)
    | Whiteout(path: Path)
    | Opaque(path: Path)
    | Special(path: Path)
    | Escaping

  type Layer = seq<Entry>

  /** The files below the root, which itself is always a directory. */
  type Tree = map<Path, Node>

  predicate Proper(e: Entry) {
    e.Opaque? || e.Escaping? || e.path != []
  }

  // ----- what the file operations do -----

  function At(t: Tree, p: Path): Option<Node> {
    if p == [] then Some(Dir) else if p in t then Some(t[p]) else None
  }

  function RemoveAll(t: Tree, q: Path): Tree {
    map p | p in t && !(q <= p) :: t[p]
  }

  function EmptyDir(t: Tree, d: Path): Tree {
    map p | p in t && !(d < p) :: t[p]
  }

  /** Makes the directory and those above it, unless one of them is a file. */
  function MkdirAll(t: Tree, p: Path): Option<Tree>
    decreases |p|
  {
    if p == [] then Some(t)
    else
      match MkdirAll(t, p[..|p| - 1])
      case None => None
      case Some(t1) => if p in t1 && t1[p].File? then None else Some(t1[p := Dir])
  }

  /** Where a file is written before it is moved into place. */
  function Tmp(p: Path): Path
    requires p != []
  {
    p[..|p| - 1] + [p[|p| - 1] + ".tmp"]
  }

  function WriteFile(t: Tree, p: Path, content: string): Option<Tree>
    requires p != []
  {
    match MkdirAll(t, p[..|p| - 1])
    case None => None
    case Some(t1) =>
      if Tmp(p) in t1 && t1[Tmp(p)].Dir? then None
      else Some(RemoveAll(t1[Tmp(p) := File(content)], p)[p := File(content)] - {Tmp(p)})
  }

  function Apply(t: Tree, e: Entry): Option<Tree>
    requires Proper(e)
  {
    match e
    case AddDir(p) => MkdirAll(t, p)
    case AddFile(p, content) => WriteFile(t, p, content)
    case Whiteout(p) => Some(RemoveAll(t, p))
    case Opaque(d) => (match MkdirAll(t, d) case None => None case Some(t1) => Some(EmptyDir(t1, d)))
    case Special(p) => if p[0] == "dev" && |p| > 1 then Some(t) else None
    case Escaping => None
  }

  function ApplyAll(t: Tree, entries: Layer): Option<Tree>
    requires forall e | e in entries :: Proper(e)
  {
    if entries == [] then Some(t)
    else
      match ApplyAll(t, entries[..|entries| - 1])
      case None => None
      case Some(t1) => Apply(t1, entries[|entries| - 1])
  }

  // ----- looking a path up in the entries instead -----

  /** What an entry says of a path, if anything: what is there, or that nothing is. */
  function Verdict(e: Entry, p: Path): Option<Option<Node>> {
    match e
    case AddDir(q) => if p <= q then Some(Some(Dir)) else None
    case AddFile(q, content) =>
      if p == q then Some(Some(File(content))) else if p < q then Some(Some(Dir)) else if q < p then Some(None) else
          None
    case Whiteout(q) => if q <= p then Some(None) else None
    case Opaque(d) => if p <= d then Some(Some(Dir)) else if d < p then Some(None) else None
    case Special(q) => None
    case Escaping => None
  }

  /** The last entry that says something decides. */
  function LastVerdict(entries: Layer, p: Path): Option<Option<Node>> {
    if entries == [] then None
    else if Verdict(entries[|entries| - 1], p).Some? then Verdict(entries[|entries| - 1], p)
    else LastVerdict(entries[..|entries| - 1], p)
  }

  /** A file takes its temporary name away from whatever lies there. */
  predicate Clears(e: Entry, p: Path) {
    e.AddFile? && e.path != [] && Tmp(e.path) == p
  }

  /** What an entry does to a path when it is unpacked: what it says of it, or else that it
      clears it for a moment's use as a temporary name. */
  function Effect(e: Entry, p: Path): Option<Option<Node>> {
    if Verdict(e, p).Some? then Verdict(e, p) else if Clears(e, p) then Some(None) else None
  }

  function LastEffect(entries: Layer, p: Path): Option<Option<Node>> {
    if entries == [] then None
    else if Effect(entries[|entries| - 1], p).Some? then Effect(entries[|entries| - 1], p)
    else LastEffect(entries[..|entries| - 1], p)
  }

  function Shown(v: Option<Option<Node>>): Option<Node> {
    match v
    case Some(x) => x
    case None => None
  }

  // ----- one entry -----

  /** Everything lies in directories. */
  ghost predicate Closed(t: Tree) {
    && [] !in t
    && forall p, q | p in t && q < p && q != [] :: At(t, q) == Some(Dir)
  }

  lemma PrefixOfPrefix(q: Path, p: Path)
    requires p != []
    ensures q < p <==> q <= p[..|p| - 1]
  {
  }

  lemma {:induction false} MkdirAllAt(t: Tree, d: Path, p: Path)
    requires Closed(t) && MkdirAll(t, d).Some? && p != []
    ensures At(MkdirAll(t, d).value, p) == if p <= d then Some(Dir) else At(t, p)
    ensures [] !in MkdirAll(t, d).value
    decreases |d|
  {
    if d != [] {
      MkdirAllAt(t, d[..|d| - 1], p);
      PrefixOfPrefix(p, d);
      assert p <= d && !(p < d) ==> p == d;
    }
  }

  lemma TmpApart(q: Path)
    requires q != []
    ensures !(q <= Tmp(q)) && !(Tmp(q) <= q)
  {
    var n := |q| - 1;
    assert Tmp(q)[n] == q[n] + ".tmp";
    assert |Tmp(q)[n]| == |q[n]| + 4;
  }

  lemma WriteFileAt(t: Tree, q: Path, content: string, p: Path)
    requires Closed(t) && q != [] && p != [] && WriteFile(t, q, content).Some?
    ensures At(WriteFile(t, q, content).value, p) ==
            match Effect(AddFile(q, content), p) case Some(x) => x case None => At(t, p)
  {
    var parent := q[..|q| - 1];
    TmpApart(q);
    MkdirAllAt(t, parent, p);
    PrefixOfPrefix(p, q);
  }

  /** Nothing lies below the temporary name of a file that can be written. */
  lemma NothingBelowTmp(t: Tree, q: Path, content: string, p: Path)
    requires Closed(t) && q != [] && WriteFile(t, q, content).Some? && Tmp(q) < p
    ensures p !in t
  {
    var parent := q[..|q| - 1];
    TmpApart(q);
    MkdirAllAt(t, parent, Tmp(q));
    PrefixOfPrefix(Tmp(q), q);
    assert At(t, Tmp(q)) != Some(Dir);
  }

  lemma EmptyDirAt(t: Tree, d: Path, p: Path)
    requires Closed(t) && p != [] && MkdirAll(t, d).Some?
    ensures At(EmptyDir(MkdirAll(t, d).value, d), p)
            == (match Verdict(Opaque(d), p) case Some(x) => x case None => At(t, p))
  {
    MkdirAllAt(t, d, p);
  }

  /** After an entry has been applied, a path holds what the entry's effect on it is, or what
      it held before. */
  lemma ApplyAt(t: Tree, e: Entry, p: Path)
    requires Closed(t) && Proper(e) && Apply(t, e).Some? && p != []
    ensures At(Apply(t, e).value, p) == match Effect(e, p) case Some(x) => x case None => At(t, p)
  {
    match e {
      case AddDir(q) => MkdirAllAt(t, q, p);
      case AddFile(q, content) => WriteFileAt(t, q, content, p);
      case Whiteout(q) =>
      case Opaque(d) => EmptyDirAt(t, d, p);
      case Special(q) =>
      case Escaping =>
    }
  }

  lemma VerdictClosed(e: Entry, q: Path, p: Path)
    requires q < p && Verdict(e, p).Some? && Verdict(e, p).value.Some?
    ensures Verdict(e, q) == Some(Some(Dir))
  {
  }

  lemma VerdictHides(e: Entry, q: Path, p: Path)
    requires q < p && Verdict(e, p).None? && Verdict(e, q).Some?
    ensures Verdict(e, q) == Some(Some(Dir))
  {
  }

  lemma RootStays(t: Tree, e: Entry)
    requires Closed(t) && Proper(e) && Apply(t, e).Some?
    ensures [] !in Apply(t, e).value
  {
    match e {
      case AddDir(q) => MkdirAllAt(t, q, [""]);
      case AddFile(q, content) => MkdirAllAt(t, q[..|q| - 1], [""]);
      case Whiteout(q) =>
      case Opaque(d) => MkdirAllAt(t, d, [""]);
      case Special(q) =>
      case Escaping =>
    }
  }

  /** Every entry that can be applied leaves everything in directories. */
  lemma ApplyCloses(t: Tree, e: Entry)
    requires Closed(t) && Proper(e) && Apply(t, e).Some?
    ensures Closed(Apply(t, e).value)
  {
    var t' := Apply(t, e).value;
    RootStays(t, e);
    forall p, q | p in t' && q < p && q != [] ensures At(t', q) == Some(Dir) {
      ApplyAt(t, e, p);
      ApplyAt(t, e, q);
      if Clears(e, q) {
        NothingBelowTmp(t, e.path, e.content, p);
      }
      hide Apply, Verdict, Clears;
      if Verdict(e, p).Some? {
        VerdictClosed(e, q, p);
      } else if Verdict(e, q).Some? {
        VerdictHides(e, q, p);
      }
    }
  }

  // ----- all entries -----

  predicate Provides(e: Entry, p: Path) {
    (e.AddDir? || e.AddFile? || e.Opaque?) && p <= e.path
  }

  /** Unpacking entries that apply without error leaves at every path what the last entry with
      an effect on it does, and nothing where none has one. */
  lemma {:induction false} UnpackedIsLastEffect(entries: Layer, p: Path)
    requires (forall e | e in entries :: Proper(e)) && ApplyAll(map[], entries).Some? && p != []
    ensures var t := ApplyAll(map[], entries).value;
            Closed(t) && At(t, p) == Shown(LastEffect(entries, p))
  {
    if entries != [] {
      var n := |entries| - 1;
      var e := entries[n];
      assert forall f | f in entries[..n] :: f in entries;
      UnpackedIsLastEffect(entries[..n], p);
      var t := ApplyAll(map[], entries[..n]).value;
      hide Apply, Closed, Effect;
      ApplyAt(t, e, p);
      ApplyCloses(t, e);
    }
  }

  // ----- which entries can be unpacked -----

  /** What lies at a path after some entries, by the last of them with an effect on it. */
  function Left(before: Layer, q: Path): Option<Node> {
    if q == [] then Some(Dir) else Shown(LastEffect(before, q))
  }

  /** No file lies at the path or above it. */
  ghost predicate WayIsFree(before: Layer, p: Path) {
    forall q | q <= p :: !(Left(before, q).Some? && Left(before, q).value.File?)
  }

  /** An entry can be unpacked after others: a directory and an opaque marker if no file is in
      the way, a file if none is in the way of its directory and no directory lies where it is
      written first, a whiteout always, a special file only below dev, and never an entry that
      leaves the root. */
  ghost predicate Fits(before: Layer, e: Entry) {
    match e
    case AddDir(p) => WayIsFree(before, p)
    case Opaque(d) => WayIsFree(before, d)
    case AddFile(p, _) =>
      && p != [] && WayIsFree(before, p[..|p| - 1])
      && Left(before, p[..|p| - 1] + [p[|p| - 1] + ".tmp"]) != Some(Dir)
    case Whiteout(_) => true
    case Special(p) => |p| >= 2 && p[0] == ['d', 'e', 'v']
    case Escaping => false
  }

  ghost predicate Unpackable(entries: Layer) {
    forall i | 0 <= i < |entries| :: Fits(entries[..i], entries[i])
  }

  lemma {:induction false} MkdirAllElse(t: Tree, d: Path, p: Path)
    requires MkdirAll(t, d).Some? && !(p <= d)
    ensures p in MkdirAll(t, d).value <==> p in t
    ensures p in t ==> MkdirAll(t, d).value[p] == t[p]
    decreases |d|
  {
    if d != [] {
      PrefixOfPrefix(p, d);
      assert p <= d[..|d| - 1] ==> p <= d;
      MkdirAllElse(t, d[..|d| - 1], p);
    }
  }

  lemma {:induction false} MkdirAllExactly(t: Tree, p: Path)
    ensures MkdirAll(t, p).Some? <==> forall q | q <= p && q in t && q != [] :: t[q].Dir?
    decreases |p|
  {
    if p != [] {
      var up := p[..|p| - 1];
      MkdirAllExactly(t, up);
      assert !(p <= up);
      forall q | q in t ensures q <= p <==> q == p || q <= up {
        PrefixOfPrefix(q, p);
      }
      if MkdirAll(t, up).Some? {
        MkdirAllElse(t, up, p);
      }
    }
  }

  /** One entry, on a tree that shows what the entries before it left. */
  lemma FitsExactly(t: Tree, before: Layer, e: Entry)
    requires Closed(t) && Proper(e) && forall q | q != [] :: At(t, q) == Shown(LastEffect(before, q))
    ensures Apply(t, e).Some? <==> Fits(before, e)
  {
    assert forall q :: At(t, q) == Left(before, q);
    match e {
      case AddDir(p) => WayIsFreeExactly(t, before, p);
      case Opaque(d) => WayIsFreeExactly(t, before, d);
      case AddFile(p, _) =>
        WayIsFreeExactly(t, before, p[..|p| - 1]);
        TmpApart(p);
        PrefixOfPrefix(Tmp(p), p);
        if MkdirAll(t, p[..|p| - 1]).Some? {
          MkdirAllElse(t, p[..|p| - 1], Tmp(p));
        }
      case _ =>
    }
  }

  lemma WayIsFreeExactly(t: Tree, before: Layer, p: Path)
    requires [] !in t && forall q :: At(t, q) == Left(before, q)
    ensures MkdirAll(t, p).Some? <==> WayIsFree(before, p)
  {
    MkdirAllExactly(t, p);
    hide MkdirAll, Left;
    forall q | q <= p ensures !(At(t, q).Some? && At(t, q).value.File?) <==> (q in t && q != [] ==> t[q].Dir?) {
    }
  }

  /** Entries can be unpacked into an empty root exactly if each fits after those before it. */
  lemma {:induction false} UnpacksExactly(entries: Layer)
    requires forall e | e in entries :: Proper(e)
    ensures ApplyAll(map[], entries).Some? <==> Unpackable(entries)
  {
    hide Apply, Fits, LastEffect;
    if entries != [] {
      var n := |entries| - 1;
      assert forall f | f in entries[..n] :: f in entries;
      UnpacksExactly(entries[..n]);
      assert forall i | 0 <= i < n :: entries[..n][..i] == entries[..i] && entries[..n][i] == entries[i];
      if ApplyAll(map[], entries[..n]).Some? {
        forall q | q != [] ensures At(ApplyAll(map[], entries[..n]).value, q) == Shown(LastEffect(entries[..n], q)) {
          UnpackedIsLastEffect(entries[..n], q);
        }
        UnpackedIsLastEffect(entries[..n], [""]);
        FitsExactly(ApplyAll(map[], entries[..n]).value, entries[..n], entries[n]);
      }
    }
  }

  // ----- temporary names -----

  /** The entry uses the path as a temporary name, at a time when by the entries before it
      something lies there, and no later entry speaks of the path. */
  ghost predicate LostAt(entries: Layer, p: Path, i: nat)
    requires i < |entries|
  {
    && Clears(entries[i], p)
    && (exists node :: LastVerdict(entries[..i], p) == Some(Some(node)))
    && forall j | i < j < |entries| :: Verdict(entries[j], p).None?
  }

  ghost predicate Loses(entries: Layer, p: Path) {
    exists i: nat | i < |entries| :: LostAt(entries, p, i)
  }

  lemma ClearsSilently(e: Entry, p: Path)
    requires Clears(e, p)
    ensures Verdict(e, p).None?
  {
    TmpApart(e.path);
  }

  /** Where nobody speaks, the last word is an earlier one. */
  lemma {:induction false} LastVerdictBefore(entries: Layer, p: Path, i: nat)
    requires i <= |entries| && forall j | i <= j < |entries| :: Verdict(entries[j], p).None?
    ensures LastVerdict(entries, p) == LastVerdict(entries[..i], p)
  {
    hide Verdict;
    if i == |entries| {
      assert entries[..i] == entries;
    } else {
      var n := |entries| - 1;
      LastVerdictBefore(entries[..n], p, i);
      assert entries[..n][..i] == entries[..i];
    }
  }

  lemma LosesNext(entries: Layer, p: Path)
    requires entries != []
    ensures var n := |entries| - 1;
            Loses(entries, p) <==>
              || LostAt(entries, p, n)
              || (Verdict(entries[n], p).None? && Loses(entries[..n], p))
  {
    hide Verdict, LastVerdict, Clears;
    var n := |entries| - 1;
    forall i: nat | i < n
      ensures LostAt(entries, p, i) <==> Verdict(entries[n], p).None? && LostAt(entries[..n], p, i)
    {
      assert entries[..n][..i] == entries[..i];
    }
  }

  lemma LosesThere(entries: Layer, p: Path)
    requires Loses(entries, p)
    ensures exists node :: LastVerdict(entries, p) == Some(Some(node))
  {
    hide Verdict, LastVerdict, Clears;
    var i: nat :| i < |entries| && LostAt(entries, p, i);
    ClearsSilently(entries[i], p);
    LastVerdictBefore(entries, p, i);
  }

  /** Effects and verdicts come to the same exactly where nothing is lost. */
  lemma {:induction false} EffectsAreVerdicts(entries: Layer, p: Path)
    ensures Shown(LastEffect(entries, p)) == if Loses(entries, p) then None else Shown(LastVerdict(entries, p))
  {
    if entries != [] {
      var n := |entries| - 1;
      EffectsAreVerdicts(entries[..n], p);
      LosesNext(entries, p);
      if Clears(entries[n], p) {
        ClearsSilently(entries[n], p);
        LastVerdictBefore(entries, p, n);
      }
      if Loses(entries, p) {
        LosesThere(entries, p);
      }
      hide Verdict, Clears, Loses;
    }
  }

  /** Unpacking entries that apply without error leaves at a path what the last entry to speak
      of it says, and nothing where none does, exactly if the path is not lost to a temporary
      name; a lost path holds nothing, although the last entry to speak of it put something
      there. */
  lemma UnpackedIsLastVerdict(entries: Layer, p: Path)
    requires (forall e | e in entries :: Proper(e)) && ApplyAll(map[], entries).Some? && p != []
    ensures var t := ApplyAll(map[], entries).value;
            && (At(t, p) == Shown(LastVerdict(entries, p)) <==> !Loses(entries, p))
            && (Loses(entries, p) ==> At(t, p) == None)
  {
    hide ApplyAll, LastEffect, LastVerdict, Loses;
    UnpackedIsLastEffect(entries, p);
    EffectsAreVerdicts(entries, p);
    if Loses(entries, p) {
      LosesThere(entries, p);
    }
  }

  /** For example a file whose name is a later file's with ".tmp" behind it; the other way
      round nothing is lost. */
  lemma TmpIsLost(x: string, y: string)
    ensures var entries := [AddFile(["a.tmp"], x), AddFile(["a"], y)];
            && ApplyAll(map[], entries).Some? && ["a.tmp"] !in ApplyAll(map[], entries).value
            && LastVerdict(entries, ["a.tmp"]) == Some(Some(File(x)))
    ensures !Loses([AddFile(["a"], y), AddFile(["a.tmp"], x)], ["a.tmp"])
  {
    var e1, e2 := AddFile(["a.tmp"], x), AddFile(["a"], y);
    var entries := [e1, e2];
    assert entries[..1] == [e1] && entries[..1][..0] == [];
    assert ["a.tmp"][..0] == [] && ["a"][..0] == [];
    assert "a" + ".tmp" == "a.tmp" && Tmp(["a"]) == ["a.tmp"] && ["a.tmp"] != ["a"];
    TmpVerdict(x, y);
    assert ApplyAll(map[], [e1]) == WriteFile(map[], ["a.tmp"], x);
    assert ApplyAll(map[], entries) == WriteFile(ApplyAll(map[], [e1]).value, ["a"], y);
    assert LostAt(entries, ["a.tmp"], 1);
    hide ApplyAll, LastVerdict;
    UnpackedIsLastVerdict(entries, ["a.tmp"]);
    assert Verdict(e1, ["a.tmp"]).Some?;
  }

  lemma TmpVerdict(x: string, y: string)
    ensures LastVerdict([AddFile(["a.tmp"], x), AddFile(["a"], y)], ["a.tmp"]) == Some(Some(File(x)))
    ensures LastVerdict([AddFile(["a.tmp"], x)], ["a.tmp"]) == Some(Some(File(x)))
  {
    var e1, e2 := AddFile(["a.tmp"], x), AddFile(["a"], y);
    assert [e1, e2][..1] == [e1];
    assert ["a.tmp"][0] != ["a"][0];
    assert Verdict(e2, ["a.tmp"]) == None;
    assert LastVerdict([e1], ["a.tmp"]) == Some(Some(File(x)));
  }
}

/** Log files that rotate by size, and what of the log they still hold. */
module LogRotation {

  type Record = string

  function Size(rs: seq<Record>): nat {
    if rs == [] then 0 else Size(rs[..|rs| - 1]) + |rs[|rs| - 1]|
  }

  predicate Rotates(size: int, next: nat, maxBytes: int) {
    maxBytes > 0 && size + next > maxBytes
  }

  // ----- how a log is cut into files -----

  /** The whole log cut where a rotation took place, oldest piece first. */
  function Pack(log: seq<Record>, maxBytes: int): (p: seq<seq<Record>>)
    ensures p != []
  {
    if log == [] then [[]]
    else
      var r := log[|log| - 1];
      var p := Pack(log[..|log| - 1], maxBytes);
      var last := p[|p| - 1];
      if Rotates(Size(last), |r|, maxBytes) then p + [[r]] else p[..|p| - 1] + [last + [r]]
  }

  function Flatten(p: seq<seq<Record>>): seq<Record> {
    if p == [] then [] else Flatten(p[..|p| - 1]) + p[|p| - 1]
  }

  lemma PackNext(log: seq<Record>, r: Record, maxBytes: int)
    ensures var p := Pack(log, maxBytes);
            Pack(log + [r], maxBytes)
            == if Rotates(Size(p[|p| - 1]), |r|, maxBytes) then p + [[r]] else p[..|p| - 1] + [p[|p| - 1] + [r]]
  {
    assert (log + [r])[..|log|] == log;
  }

  /** Cutting loses nothing and keeps the order. */
  lemma {:induction false} PackKeepsAll(log: seq<Record>, maxBytes: int)
    ensures Flatten(Pack(log, maxBytes)) == log
  {
    if log == [] {
      var p := Pack(log, maxBytes);
      assert p == [[]] && p[..0] == [];
    } else {
      var n := |log| - 1;
      PackKeepsAll(log[..n], maxBytes);
      var p := Pack(log[..n], maxBytes);
      var m := |p| - 1;
      PackNext(log[..n], log[n], maxBytes);
      assert log == log[..n] + [log[n]];
      assert (p + [[log[n]]])[..m + 1] == p;
      assert (p[..m] + [p[m] + [log[n]]])[..m] == p[..m];
    }
  }

  lemma SizeNext(rs: seq<Record>, r: Record)
    ensures Size(rs + [r]) == Size(rs) + |r|
  {
    assert (rs + [r])[..|rs|] == rs;
  }

  /** Every piece is within the limit, or is one record that is not; and no piece was cut
      while the next record still fitted. */
  predicate Tight(p: seq<seq<Record>>, maxBytes: int) {
    && (forall i | 0 <= i < |p| :: Size(p[i]) <= maxBytes || |p[i]| == 1)
    && (forall i | 0 < i < |p| :: Cut(p[i - 1], p[i], maxBytes))
  }

  predicate Cut(a: seq<Record>, b: seq<Record>, maxBytes: int) {
    b != [] && Size(a) + |b[0]| > maxBytes
  }

  lemma {:induction false} PackIsTight(log: seq<Record>, maxBytes: int)
    requires maxBytes > 0
    ensures Tight(Pack(log, maxBytes), maxBytes)
  {
    if log != [] {
      var n := |log| - 1;
      PackIsTight(log[..n], maxBytes);
      PackNext(log[..n], log[n], maxBytes);
      assert log == log[..n] + [log[n]];
      hide Pack, Tight;
      TightNext(Pack(log[..n], maxBytes), log[n], maxBytes);
    }
  }

  lemma TightNext(p: seq<seq<Record>>, r: Record, maxBytes: int)
    requires p != [] && Tight(p, maxBytes) && maxBytes > 0
    ensures Tight(if Rotates(Size(p[|p| - 1]), |r|, maxBytes) then p + [[r]] else
            p[..|p| - 1] + [p[|p| - 1] + [r]], maxBytes)
  {
    hide Size, Cut;
    var n := |p| - 1;
    if Rotates(Size(p[n]), |r|, maxBytes) {
      CutHere(p[n], [r], maxBytes);
    } else {
      SizeNext(p[n], r);
      var q := p[..n] + [p[n] + [r]];
      forall i | 0 < i < |q| ensures Cut(q[i - 1], q[i], maxBytes) {
        assert Cut(p[i - 1], p[i], maxBytes);
        if i == n {
          CutStays(p[n - 1], p[n], r, maxBytes);
        }
      }
    }
  }

  lemma CutHere(a: seq<Record>, b: seq<Record>, maxBytes: int)
    requires b != [] && Size(a) + |b[0]| > maxBytes
    ensures Cut(a, b, maxBytes)
  {
  }

  lemma CutStays(a: seq<Record>, b: seq<Record>, r: Record, maxBytes: int)
    requires Cut(a, b, maxBytes)
    ensures Cut(a, b + [r], maxBytes)
  {
  }

  /** The pieces at the end of the log hold its last records. */
  lemma {:induction false} LastPiecesAreSuffix(p: seq<seq<Record>>, k: nat)
    requires k <= |p|
    ensures Flatten(p) == Flatten(p[..k]) + Flatten(p[k..])
    decreases |p|
  {
    var n := |p|;
    if k == n {
      assert p[..k] == p && p[k..] == [];
    } else {
      LastPiecesAreSuffix(p[..n - 1], k);
      assert p[..n - 1][..k] == p[..k];
      assert p[..n - 1][k..] == p[k..][..n - 1 - k];
      assert p[k..][n - 1 - k] == p[n - 1];
    }
  }

  // ----- the files -----

  /** File 0 is the log being written, file k its k-th backup. */
  type Files = map<nat, seq<Record>>

  function Kept(maxBackups: int): nat {
    if maxBackups > 0 then maxBackups else 0
  }

  function FromEnd(p: seq<seq<Record>>, k: nat): seq<Record>
    requires k < |p|
  {
    p[|p| - 1 - k]
  }

  /** The files are the last pieces of the log, newest first, and there is no other file. */
  ghost predicate Holds(files: Files, log: seq<Record>, maxBytes: int, maxBackups: int) {
    HoldsLast(files, Pack(log, maxBytes), maxBackups)
  }

  ghost predicate HoldsLast(files: Files, p: seq<seq<Record>>, maxBackups: int) {
    && (forall k: nat :: k in files <==> k <= Kept(maxBackups) && k < |p|)
    && (forall k: nat | k in files && k < |p| :: files[k] == FromEnd(p, k))
  }

  predicate FromNewer(files: Files, k: nat) {
    k > 0 && k - 1 in files
  }

  function Newer(files: Files, k: nat): seq<Record>
    requires FromNewer(files, k)
  {
    files[k - 1]
  }

  /** What a rotation makes of the files. */
  function Rotated(files: Files, maxBackups: int): Files {
    (map k: nat | k <= Kept(maxBackups) && FromNewer(files, k) :: Newer(files, k))[0 := []]
  }

  lemma RotatedHolds(files: Files, log: seq<Record>, r: Record, maxBytes: int, maxBackups: int)
    requires Holds(files, log, maxBytes, maxBackups) && 0 in files && Rotates(Size(files[0]), |r|, maxBytes)
    ensures Holds(Rotated(files, maxBackups)[0 := [r]], log + [r], maxBytes, maxBackups)
  {
    PackNext(log, r, maxBytes);
    hide Size, Pack;
    var p := Pack(log, maxBytes);
    assert files[0] == FromEnd(p, 0);
    RotatedHoldsLast(files, p, r, maxBackups);
  }

  lemma RotatedHoldsLast(files: Files, p: seq<seq<Record>>, r: Record, maxBackups: int)
    requires HoldsLast(files, p, maxBackups) && p != []
    ensures HoldsLast(Rotated(files, maxBackups)[0 := [r]], p + [[r]], maxBackups)
  {
    var files' := Rotated(files, maxBackups)[0 := [r]];
    var p' := p + [[r]];
    forall k: nat ensures k in files' <==> k <= Kept(maxBackups) && k < |p'| {
      if k > 0 {
        assert k - 1 in files <==> k - 1 <= Kept(maxBackups) && k - 1 < |p|;
      }
    }
    forall k: nat | k in files' && k < |p'| ensures files'[k] == FromEnd(p', k) {
      if k > 0 {
        assert files[k - 1] == FromEnd(p, k - 1);
      }
    }
  }

  lemma AppendedHolds(files: Files, log: seq<Record>, r: Record, maxBytes: int, maxBackups: int)
    requires Holds(files, log, maxBytes, maxBackups) && 0 in files && !Rotates(Size(files[0]), |r|, maxBytes)
    ensures Holds(files[0 := files[0] + [r]], log + [r], maxBytes, maxBackups)
  {
    PackNext(log, r, maxBytes);
    hide Size, Pack;
    var p := Pack(log, maxBytes);
    var n := |p| - 1;
    assert files[0] == FromEnd(p, 0);
    var files', p' := files[0 := files[0] + [r]], p[..n] + [p[n] + [r]];
    forall k: nat | k in files' && k < |p'| ensures files'[k] == FromEnd(p', k) {
      assert k > 0 ==> files[k] == FromEnd(p, k);
    }
  }

  /** How many files there are. */
  function Count(log: seq<Record>, maxBytes: int, maxBackups: int): (n: nat)
    ensures n <= |Pack(log, maxBytes)|
  {
    if |Pack(log, maxBytes)| <= Kept(maxBackups) + 1 then |Pack(log, maxBytes)| else Kept(maxBackups) + 1
  }

  /** The files from the last backup to the log being written. */
  function OnDisk(files: Files, n: nat): seq<seq<Record>>
    requires forall k: nat | k < n :: k in files
  {
    seq(n, i requires 0 <= i < n => files[n - 1 - i])
  }

  /** What is on disk: a contiguous run of records at the end of the log, in write order and
      file by file, without gaps in the numbering; what is gone is the oldest pieces. */
  lemma DiskIsSuffix(files: Files, log: seq<Record>, maxBytes: int, maxBackups: int)
    requires Holds(files, log, maxBytes, maxBackups)
    ensures var n := Count(log, maxBytes, maxBackups); var p := Pack(log, maxBytes);
            && (forall k: nat :: k in files <==> k < n)
            && log == Flatten(p[..|p| - n]) + Flatten(OnDisk(files, n))
  {
    var p := Pack(log, maxBytes);
    var n := Count(log, maxBytes, maxBackups);
    PackKeepsAll(log, maxBytes);
    hide Pack, Flatten;
    LastPiecesAreSuffix(p, |p| - n);
    DiskHolds(files, p, maxBackups, n);
  }

  lemma DiskHolds(files: Files, p: seq<seq<Record>>, maxBackups: int, n: nat)
    requires HoldsLast(files, p, maxBackups) && n == if |p| <= Kept(maxBackups) + 1 then |p| else Kept(maxBackups) + 1
    ensures (forall k: nat :: k in files <==> k < n) && OnDisk(files, n) == p[|p| - n..]
  {
    assert forall k: nat :: k in files <==> k < n;
    var q := p[|p| - n..];
    forall i | 0 <= i < n ensures OnDisk(files, n)[i] == q[i] {
      assert files[n - 1 - i] == FromEnd(p, n - 1 - i);
    }
  }

  /** Files above `i + 1` have moved up, file `i + 1` is free, the others are in place. */
  ghost predicate Shifting(f: Files, g: Files, i: nat, maxBackups: int) {
    && i + 1 !in g
    && (forall k: nat | k <= i :: (k in g <==> k in f) && (k in g && k in f ==> g[k] == f[k]))
    && (forall k: nat | k > i + 1 ::
        (k in g <==> k <= maxBackups && FromNewer(f, k)) && (k in g && FromNewer(f, k) ==> g[k] == Newer(f, k)))
  }

  lemma ShiftStart(f: Files, maxBackups: int)
    requires maxBackups > 0 && forall k | k in f :: k <= maxBackups
    ensures Shifting(f, f - {maxBackups}, maxBackups - 1, maxBackups)
  {
  }

  lemma ShiftNext(f: Files, g: Files, i: nat, maxBackups: int)
    requires 1 <= i < maxBackups && Shifting(f, g, i, maxBackups)
    ensures Shifting(f, if i in g then g[i + 1 := g[i]] - {i} else g, i - 1, maxBackups)
  {
    assert FromNewer(f, i + 1) <==> i in f;
    assert i in g ==> Newer(f, i + 1) == g[i];
  }

  lemma ShiftEnd(f: Files, g: Files, maxBackups: int)
    requires maxBackups > 0 && 0 in f && Shifting(f, g, 0, maxBackups)
    ensures 0 in g && (g[1 := g[0]] - {0})[0 := []] == Rotated(f, maxBackups)
  {
    assert FromNewer(f, 1) && Newer(f, 1) == g[0];
  }

  lemma NoBackups(f: Files, maxBackups: int)
    requires maxBackups <= 0 && forall k | k in f :: k == 0
    ensures (f - {0})[0 := []] == Rotated(f, maxBackups)
  {
  }

  lemma HoldsNumbers(files: Files, log: seq<Record>, maxBytes: int, maxBackups: int)
    requires Holds(files, log, maxBytes, maxBackups)
    ensures forall k | k in files :: k <= Kept(maxBackups)
  {
  }

  lemma RotatedHas(files: Files, maxBackups: int)
    ensures 0 in Rotated(files, maxBackups) && Rotated(files, maxBackups)[0] == []
  {
  }

  lemma EmptyIsZero()
    ensures Size([]) == 0
  {
  }

  // ----- the writer -----

  class Writer {
    var files: Files
    var size: int
    const maxBytes: int
    const maxBackups: int
    ghost var log: seq<Record>

    ghost predicate Valid()
      reads this
    {
      && Holds(files, log, maxBytes, maxBackups)
      && 0 in files && size == Size(files[0])
    }

    constructor (maxBytes: int, maxBackups: int)
      ensures Valid() && log == [] && this.maxBytes == maxBytes && this.maxBackups == maxBackups
    {
      this.maxBytes, this.maxBackups := maxBytes, maxBackups;
      files := map[0 := []];
      size := 0;
      log := [];
    }

    /** A writer that opens the files of an earlier one goes on from there. */
    constructor Reopen(earlier: Writer)
      requires earlier.Valid()
      ensures Valid() && files == earlier.files && log == earlier.log
      ensures maxBytes == earlier.maxBytes && maxBackups == earlier.maxBackups
    {
      maxBytes, maxBackups := earlier.maxBytes, earlier.maxBackups;
      files := earlier.files;
      size := Size(earlier.files[0]);
      log := earlier.log;
    }

    /** Every backup moves up by one, the last one goes, and the log becomes the first. */
    method Rotate()
      requires 0 in files && forall k | k in files :: k <= Kept(maxBackups)
      modifies this`files, this`size
      ensures files == Rotated(old(files), maxBackups) && size == 0
    {
      ghost var f := files;
      hide Shifting, Rotated;
      if maxBackups > 0 {
        ShiftStart(f, maxBackups);
        files := files - {maxBackups};
        var i := maxBackups - 1;
        while i >= 1
          invariant 0 <= i < maxBackups
          invariant Shifting(f, files, i, maxBackups)
        {
          ShiftNext(f, files, i, maxBackups);
          if i in files {
            files := files[i + 1 := files[i]] - {i};
          }
          i := i - 1;
        }
        ShiftEnd(f, files, maxBackups);
        files := files[1 := files[0]] - {0};
      } else {
        NoBackups(f, maxBackups);
        files := files - {0};
      }
      files := files[0 := []];
      size := 0;
    }

    /** Writes a record, after a rotation if it would no longer fit. */
    method Write(r: Record)
      requires Valid()
      modifies this
      ensures Valid() && log == old(log) + [r]
      ensures files == if Rotates(Size(old(files)[0]), |r|, maxBytes) then Rotated(old(files), maxBackups)[0 := [r]]
                       else old(files)[0 := old(files)[0] + [r]]
    {
      hide Holds, Size, Rotated;
      ghost var f := files;
      HoldsNumbers(f, log, maxBytes, maxBackups);
      EmptyIsZero();
      RotatedHas(f, maxBackups);
      SizeNext([], r);
      SizeNext(files[0], r);
      assert [] + [r] == [r];
      if maxBytes > 0 && size + |r| > maxBytes {
        Rotate();
        RotatedHolds(f, log, r, maxBytes, maxBackups);
      } else {
        AppendedHolds(f, log, r, maxBytes, maxBackups);
      }
      files := files[0 := files[0] + [r]];
      size := size + |r|;
      log := log + [r];
    }
  }
}

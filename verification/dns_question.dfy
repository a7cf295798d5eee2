/** Cache keys of DNS questions, and when an answer may be cached. */
module DnsQuestion {
  import opened Text
  import opened Wrappers

  datatype Question = Question(name: string, qtype: nat, qclass: nat, dnssecOk: bool)

  /** An answer as the cache sees it: the TTLs, in seconds, of the records of its three sections. */
  datatype Message = Message(answer: seq<nat>, ns: seq<nat>, extra: seq<nat>, body: string)

  function Ttls(m: Message): seq<nat> {
    m.answer + m.ns + m.extra
  }

  // ----- keys -----

  /** The name with its final dot. */
  function Fqdn(s: string): string {
    if s != "" && s[|s| - 1] == '.' then s else s + "."
  }

  function Flag(b: bool): (r: string)
    ensures '|' !in r
  {
    if b then "do=true" else "do=false"
  }

  function CacheKey(q: Question): string {
    Lower(Fqdn(q.name)) + "|" + Digits(q.qtype) + "|" + Digits(q.qclass) + "|" + Flag(q.dnssecOk)
  }

  /** How much of a name there is before its final dot, if it has one. */
  function Bare(s: string): nat {
    if s != "" && s[|s| - 1] == '.' then |s| - 1 else |s|
  }

  predicate SameLetter(c: char, d: char) {
    || c == d
    || ('A' <= c <= 'Z' && d as int == c as int + 32)
    || ('A' <= d <= 'Z' && c as int == d as int + 32)
  }

  /** The names agree letter by letter, whatever their case, a final dot of either left aside. */
  predicate SameName(a: string, b: string) {
    Bare(a) == Bare(b) && forall i | 0 <= i < Bare(a) :: SameLetter(a[i], b[i])
  }

  /** The same question up to the case of the name and its final dot. */
  predicate SameQuestion(a: Question, b: Question) {
    SameName(a.name, b.name) && a.qtype == b.qtype && a.qclass == b.qclass && a.dnssecOk == b.dnssecOk
  }

  lemma SameNameIs(a: string, b: string)
    ensures SameName(a, b) <==> Lower(Fqdn(a)) == Lower(Fqdn(b))
  {
    var x, y := Lower(Fqdn(a)), Lower(Fqdn(b));
    LowerIs(Fqdn(a));
    LowerIs(Fqdn(b));
    assert |x| == Bare(a) + 1 && |y| == Bare(b) + 1;
    assert x[Bare(a)] == '.' && y[Bare(b)] == '.';
    if Bare(a) == Bare(b) {
      forall i | 0 <= i < Bare(a) ensures x[i] == y[i] <==> SameLetter(a[i], b[i]) {
        assert Fqdn(a)[i] == a[i] && Fqdn(b)[i] == b[i];
      }
    }
    hide Lower;
  }

  // No bar comes after the last one.
  lemma BarsBefore(s: string, i: nat, j: nat)
    requires i < |s| && j < |s| && s[j] == '|' && '|' !in s[i + 1..]
    ensures j <= i
  {
    forall k | i < k < |s| ensures s[k] != '|' {
      assert s[k] == s[i + 1..][k - i - 1];
    }
  }

  // What follows the last bar determines where the last bar is.
  lemma LastBar(a: string, b: string, a': string, b': string)
    requires a + "|" + b == a' + "|" + b' && '|' !in b && '|' !in b'
    ensures a == a' && b == b'
  {
    var s := a + "|" + b;
    assert s[|a| + 1..] == b;
    assert (a' + "|" + b')[|a'| + 1..] == b';
    assert s[|a|] == '|' && (a' + "|" + b')[|a'|] == '|';
    BarsBefore(s, |a|, |a'|);
    BarsBefore(s, |a'|, |a|);
    assert a == s[..|a|] && a' == (a' + "|" + b')[..|a'|];
  }

  /** Two questions share a cache key exactly if they are the same question, whatever bars
      the names hold. */
  lemma KeyIsExact(a: Question, b: Question)
    ensures CacheKey(a) == CacheKey(b) <==> SameQuestion(a, b)
  {
    SameNameIs(a.name, b.name);
    hide Lower, Fqdn, Digits, SameName;
    if CacheKey(a) == CacheKey(b) {
      var na, nb := Lower(Fqdn(a.name)), Lower(Fqdn(b.name));
      LastBar(na + "|" + Digits(a.qtype) + "|" + Digits(a.qclass), Flag(a.dnssecOk),
              nb + "|" + Digits(b.qtype) + "|" + Digits(b.qclass), Flag(b.dnssecOk));
      LastBar(na + "|" + Digits(a.qtype), Digits(a.qclass), nb + "|" + Digits(b.qtype), Digits(b.qclass));
      LastBar(na, Digits(a.qtype), nb, Digits(b.qtype));
      DigitsInjective(a.qtype, b.qtype);
      DigitsInjective(a.qclass, b.qclass);
    }
  }

  // ----- how long an answer lasts -----

  ghost predicate IsMinTtl(m: Message, ttl: nat) {
    ttl in Ttls(m) && forall t | t in Ttls(m) :: ttl <= t
  }

  /** A record of one of the three sections has that TTL. */
  predicate HasTtl(m: Message, t: nat) {
    t in m.answer || t in m.ns || t in m.extra
  }

  lemma AllSections(m: Message)
    ensures forall t :: t in Ttls(m) <==> HasTtl(m, t)
    ensures Ttls(m) == [] <==> forall t :: !HasTtl(m, t)
  {
    if Ttls(m) != [] {
      assert HasTtl(m, Ttls(m)[0]);
    }
  }

  /** The least TTL of all records, if there is a record. */
  method MinTtl(m: Message) returns (ttl: Option<nat>)
    ensures ttl.None? <==> m.answer == [] && m.ns == [] && m.extra == []
    ensures ttl.Some? ==> HasTtl(m, ttl.value) && forall t | HasTtl(m, t) :: ttl.value <= t
    ensures ttl.Some? ==> IsMinTtl(m, ttl.value)
  {
    AllSections(m);
    ttl := None;
    var all := Ttls(m);
    var i := 0;
    while i < |all|
      invariant 0 <= i <= |all|
      invariant ttl.None? <==> i == 0
      invariant ttl.Some? ==> ttl.value in all[..i] && forall t | t in all[..i] :: ttl.value <= t
    {
      assert all[..i + 1] == all[..i] + [all[i]];
      if ttl.None? || all[i] < ttl.value {
        ttl := Some(all[i]);
      }
      i := i + 1;
    }
    assert all[..i] == all;
  }

  /** An answer is worth caching exactly if it has a record and none has a TTL of zero. */
  lemma CacheableExactly(m: Message, ttl: nat)
    requires IsMinTtl(m, ttl)
    ensures ttl > 0 <==> (exists t :: HasTtl(m, t)) && !HasTtl(m, 0)
  {
    AllSections(m);
  }
}

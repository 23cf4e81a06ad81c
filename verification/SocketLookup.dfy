/** The daemon's choice of the socket that a packet or a call is meant for, with wildcard addresses. */
module SocketLookup {
  import opened Common

  datatype Family = INET | INET6 | Other

  datatype Addr = Addr(family: Family, ip: nat, port: nat)

  /** A row of the socket table. */
  datatype Entry = Entry(available: bool, local: Addr, remote: Addr)

  predicate IsAny(a: Addr) {
    a.ip == 0
  }

  /** An entry that could be meant: it is in use, and what both sides specify agrees. */
  predicate Compatible(e: Entry, local: Addr, remote: Addr) {
    && !e.available
    && e.local.family == local.family && e.remote.family == remote.family
    && e.local.port == local.port
    && (IsAny(e.local) || IsAny(local) || e.local.ip == local.ip)
    && (IsAny(e.remote) || IsAny(remote) || (e.remote.ip == remote.ip && e.remote.port == remote.port))
  }

  /** How many of the two addresses only one side specifies. */
  function Wildcards(e: Entry, local: Addr, remote: Addr): (n: nat)
    ensures n <= 2
  {
    (if IsAny(e.local) != IsAny(local) then 1 else 0) + (if IsAny(e.remote) != IsAny(remote) then 1 else 0)
  }

  predicate Eligible(e: Entry, local: Addr, remote: Addr, exactOnly: bool) {
    Compatible(e, local, remote) && (exactOnly ==> Wildcards(e, local, remote) == 0)
  }

  // ---------- what compatible means ----------

  /** An address without wildcards. */
  predicate Concrete(a: Addr) {
    a.ip != 0
  }

  /** A local address stands for the concrete ones of its family and port, at its host or, as a wildcard, at any. */
  predicate CoversLocal(a: Addr, c: Addr) {
    a.family == c.family && a.port == c.port && (a.ip == 0 || a.ip == c.ip)
  }

  /** A remote one that is a wildcard stands for every host and port of its family. */
  predicate CoversRemote(a: Addr, c: Addr) {
    a.family == c.family && (a.ip == 0 || (a.ip == c.ip && a.port == c.port))
  }

  ghost predicate Meets(e: Entry, local: Addr, remote: Addr, l: Addr, r: Addr) {
    && Concrete(l) && Concrete(r) && CoversLocal(e.local, l) && CoversLocal(local, l)
    && CoversRemote(e.remote, r) && CoversRemote(remote, r)
  }

  /** An entry in use is compatible exactly if some connection is meant by both, the entry and what is looked for. */
  lemma CompatibleIff(e: Entry, local: Addr, remote: Addr)
    ensures Compatible(e, local, remote) <==> !e.available && exists l, r :: Meets(e, local, remote, l, r)
  {
    if Compatible(e, local, remote) {
      var l := if local.ip == 0 then e.local else local;
      var r := if remote.ip == 0 then e.remote else remote;
      var l', r' := if l.ip == 0 then l.(ip := 1) else l, if r.ip == 0 then r.(ip := 1) else r;
      assert Meets(e, local, remote, l', r');
    }
  }

  /** The wildcards of a compatible entry are the addresses for which it means more or less than is looked for. */
  lemma WildcardsCountDifferences(e: Entry, local: Addr, remote: Addr)
    requires Compatible(e, local, remote)
    ensures
      var sameLocal := forall c: Addr :: Concrete(c) ==> (CoversLocal(e.local, c) <==> CoversLocal(local, c));
      var sameRemote := forall c: Addr :: Concrete(c) ==> (CoversRemote(e.remote, c) <==> CoversRemote(remote, c));
      Wildcards(e, local, remote) == (if sameLocal then 0 else 1) + (if sameRemote then 0 else 1)
  {
    var l := if local.ip == 0 then e.local else local;
    var r := if remote.ip == 0 then e.remote else remote;
    assert CoversLocal(l, l.(ip := l.ip + 1)) <==> l.ip == 0;
    assert CoversRemote(r, r.(ip := r.ip + 1)) <==> r.ip == 0;
  }

  // ---------- the search ----------

  /** The tests of one turn of the loop: the entry's wildcards, or None where the loop goes on to the next. */
  method CountWildcards(e: Entry, local: Addr, remote: Addr) returns (n: Option<nat>)
    ensures n == if Compatible(e, local, remote) then Some(Wildcards(e, local, remote)) else None
  {
    var nwildcards := 0;
    if e.available || local.family != e.local.family || remote.family != e.remote.family || local.port != e.local.port {
      return None;
    }
    if IsAny(e.local) {
      if !IsAny(local) { nwildcards := nwildcards + 1; }
    } else if IsAny(local) {
      nwildcards := nwildcards + 1;
    } else if local.ip != e.local.ip {
      return None;
    }
    if IsAny(e.remote) {
      if !IsAny(remote) { nwildcards := nwildcards + 1; }
    } else if IsAny(remote) {
      nwildcards := nwildcards + 1;
    } else if remote.ip != e.remote.ip || remote.port != e.remote.port {
      return None;
    }
    n := Some(nwildcards);
  }

  /**
   chitcpd_lookup_socket: the first entry with the fewest wildcards of all that are compatible, though
   the loop stops at the first exact one; none if and only if no entry is eligible.
   */
  method LookupSocket(table: seq<Entry>, local: Addr, remote: Addr, exactOnly: bool) returns (m: Option<nat>)
    requires local.family == remote.family != Other
    ensures m == None <==> forall j :: 0 <= j < |table| ==> !Eligible(table[j], local, remote, exactOnly)
    ensures m.Some? ==> m.value < |table| && Eligible(table[m.value], local, remote, exactOnly)
    ensures m.Some? ==> forall j :: 0 <= j < |table| && Compatible(table[j], local, remote) ==>
      Wildcards(table[m.value], local, remote) <= Wildcards(table[j], local, remote)
    ensures m.Some? ==> forall j :: 0 <= j < m.value && Compatible(table[j], local, remote) ==>
      Wildcards(table[m.value], local, remote) < Wildcards(table[j], local, remote)
  {
    var maxNwildcards := 3;
    m := None;
    var i := 0;
    while i < |table|
      invariant 0 <= i <= |table|
      invariant m == None ==> maxNwildcards == 3
      invariant m.Some? ==> m.value < i && Compatible(table[m.value], local, remote) && !exactOnly
      invariant m.Some? ==> maxNwildcards == Wildcards(table[m.value], local, remote)
      invariant forall j :: 0 <= j < i && Eligible(table[j], local, remote, exactOnly) ==>
        maxNwildcards <= Wildcards(table[j], local, remote)
      invariant m.Some? ==> forall j :: 0 <= j < m.value && Eligible(table[j], local, remote, exactOnly) ==>
        maxNwildcards < Wildcards(table[j], local, remote)
    {
      var n := CountWildcards(table[i], local, remote);
      if n.Some? && !(n.value > 0 && exactOnly) {
        if n.value < maxNwildcards {
          m := Some(i);
          maxNwildcards := n.value;
          if n.value == 0 {
            assert forall j :: 0 <= j < i && Compatible(table[j], local, remote) ==>
              Wildcards(table[j], local, remote) > 0 || Eligible(table[j], local, remote, exactOnly);
            break;
          }
        }
      }
      i := i + 1;
    }
  }
}

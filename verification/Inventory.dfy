/**
 `Host.inventory` of rrmngmnt/host.py: a list shared by all hosts and threads, searched by ip or
 by the name an ip resolves to, and edited by `add` under a lock.
 */
module Inventory {
  import opened Wrappers

  /** A host object: its identity and its ip. */
  datatype Host = Host(id: nat, ip: string)

  /** `socket.getfqdn`, fixed for the time of a run. */
  type Resolver = string -> string

  // ---------------------------------------------------------------- get and add

  predicate Matches(h: Host, key: string, fqdn: Resolver) {
    h.ip == key || fqdn(h.ip) == key
  }

  /** `get`: the earliest entry with that ip or that name; None stands for the ValueError. */
  function Get(inv: seq<Host>, key: string, fqdn: Resolver): Option<Host> {
    if inv == [] then None
    else if Matches(inv[0], key, fqdn) then Some(inv[0])
    else Get(inv[1..], key, fqdn)
  }

  /** The entry found is the earliest that has the key for its ip or its name. */
  lemma {:induction false} GetIsEarliest(inv: seq<Host>, key: string, fqdn: Resolver)
    ensures match Get(inv, key, fqdn)
            case None => forall h :: h in inv ==> h.ip != key && fqdn(h.ip) != key
            case Some(h) => exists i :: 0 <= i < |inv| && inv[i] == h && (h.ip == key || fqdn(h.ip) == key)
                                        && forall j :: 0 <= j < i ==> inv[j].ip != key && fqdn(inv[j].ip) != key
    decreases |inv|
  {
    if inv != [] && !Matches(inv[0], key, fqdn) {
      var rest := inv[1..];
      GetIsEarliest(rest, key, fqdn);
      assert forall j :: 0 < j < |inv| ==> inv[j] == rest[j - 1];
      if Get(rest, key, fqdn).Some? {
        var i :| 0 <= i < |rest| && rest[i] == Get(rest, key, fqdn).value
                 && forall j :: 0 <= j < i ==> rest[j].ip != key && fqdn(rest[j].ip) != key;
        assert inv[i + 1] == rest[i];
      }
    }
  }

  /** `list.remove` */
  function Remove(inv: seq<Host>, h: Host): seq<Host> {
    if inv == [] then [] else if inv[0] == h then inv[1..] else [inv[0]] + Remove(inv[1..], h)
  }

  function Evict(inv: seq<Host>, found: Option<Host>): seq<Host> {
    match found
    case None => inv
    case Some(h) => Remove(inv, h)
  }

  /** The whole of `add`. */
  function Add(inv: seq<Host>, h: Host, fqdn: Resolver): seq<Host> {
    Evict(inv, Get(inv, h.ip, fqdn)) + [h]
  }

  function AddAll(hs: seq<Host>, fqdn: Resolver): seq<Host> {
    if hs == [] then [] else Add(AddAll(hs[..|hs| - 1], fqdn), hs[|hs| - 1], fqdn)
  }

  class Registry {
    var inventory: seq<Host>

    constructor ()
      ensures inventory == []
    {
      inventory := [];
    }

    /** The critical section of `add`. */
    method AddHost(h: Host, fqdn: Resolver)
      modifies this
      ensures inventory == Add(old(inventory), h, fqdn)
    {
      var found := Get(inventory, h.ip, fqdn);
      if found.Some? {
        inventory := Remove(inventory, found.value);
      }
      inventory := inventory + [h];
    }
  }

  // ---------------------------------------------------------------- sequential adds

  /** No host's name is another host's ip. */
  ghost predicate NoAlias(hs: set<Host>, fqdn: Resolver) {
    forall a, b :: a in hs && b in hs && fqdn(a.ip) == b.ip ==> a.ip == b.ip
  }

  ghost predicate DistinctIps(inv: seq<Host>) {
    forall i, j :: 0 <= i < j < |inv| ==> inv[i].ip != inv[j].ip
  }

  /** The host with that ip that was added last. */
  function LastAdded(hs: seq<Host>, ip: string): Option<Host> {
    if hs == [] then None
    else if hs[|hs| - 1].ip == ip then Some(hs[|hs| - 1])
    else LastAdded(hs[..|hs| - 1], ip)
  }

  function Elements(hs: seq<Host>): set<Host> {
    set h | h in hs
  }

  /** Every ip ever added is found, and it is the host added last that is found. */
  ghost predicate Faithful(inv: seq<Host>, hs: seq<Host>, fqdn: Resolver) {
    forall h :: h in hs ==> Get(inv, h.ip, fqdn) == LastAdded(hs, h.ip)
  }

  /** An entry that matches an ip of the pool has that ip. */
  lemma AliasFreeMatch(pool: set<Host>, h: Host, ip: string, fqdn: Resolver)
    requires NoAlias(pool, fqdn) && h in pool && exists g :: g in pool && g.ip == ip
    ensures Matches(h, ip, fqdn) <==> h.ip == ip
  {
  }

  /** Without aliases `get` is a search by ip, and at most one entry has it. */
  lemma {:induction false} GetByIp(pool: set<Host>, inv: seq<Host>, ip: string, fqdn: Resolver)
    requires NoAlias(pool, fqdn) && Elements(inv) <= pool && exists g :: g in pool && g.ip == ip
    ensures match Get(inv, ip, fqdn)
            case None => forall h :: h in inv ==> h.ip != ip
            case Some(h) => h in inv && h.ip == ip
    decreases |inv|
  {
    if inv != [] {
      assert inv[0] in Elements(inv);
      AliasFreeMatch(pool, inv[0], ip, fqdn);
      assert Elements(inv[1..]) <= Elements(inv);
      if inv[0].ip != ip {
        GetByIp(pool, inv[1..], ip, fqdn);
        assert forall h :: h in inv <==> h == inv[0] || h in inv[1..];
      }
    }
  }

  lemma {:induction false} RemoveSpec(inv: seq<Host>, h: Host)
    requires DistinctIps(inv) && h in inv
    ensures DistinctIps(Remove(inv, h))
    ensures forall g :: g in Remove(inv, h) <==> g in inv && g.ip != h.ip
    decreases |inv|
  {
    var rest := inv[1..];
    assert forall g :: g in inv <==> g == inv[0] || g in rest;
    forall g | g in rest ensures g.ip != inv[0].ip {
      var i :| 0 <= i < |rest| && rest[i] == g;
      assert inv[i + 1] == g;
    }
    if inv[0] != h {
      RemoveSpec(rest, h);
      var out := Remove(rest, h);
      assert forall i :: 0 <= i < |out| ==> out[i] in out;
    }
  }

  /**
   Adding hosts none of whose names is another's ip keeps the ips distinct, and every ip finds the
   host that was added last under it.
   */
  lemma {:induction false} AddsAreFaithful(pool: set<Host>, hs: seq<Host>, fqdn: Resolver)
    requires NoAlias(pool, fqdn) && Elements(hs) <= pool
    ensures var inv := AddAll(hs, fqdn);
            && DistinctIps(inv) && Elements(inv) <= pool
            && (forall h :: h in inv ==> LastAdded(hs, h.ip) == Some(h))
            && (forall h :: h in hs ==> exists g :: g in inv && g.ip == h.ip)
            && Faithful(inv, hs, fqdn)
    decreases |hs|
  {
    if hs != [] {
      var front, h := hs[..|hs| - 1], hs[|hs| - 1];
      var before, inv := AddAll(front, fqdn), AddAll(hs, fqdn);
      assert Elements(front) <= Elements(hs) && h in Elements(hs);
      AddsAreFaithful(pool, front, fqdn);
      AddOne(pool, before, h, fqdn);
      forall g | g in inv ensures LastAdded(hs, g.ip) == Some(g) {
        if g.ip != h.ip {
          assert g in before;
        }
      }
      forall g | g in hs ensures exists f :: f in inv && f.ip == g.ip {
        if g.ip == h.ip {
          assert h in inv;
        } else {
          assert g in front;
          var f :| f in before && f.ip == g.ip;
          assert f in inv;
        }
      }
      forall g | g in hs ensures Get(inv, g.ip, fqdn) == LastAdded(hs, g.ip) {
        assert g in Elements(hs);
        GetByIp(pool, inv, g.ip, fqdn);
      }
    }
  }

  lemma AddOne(pool: set<Host>, inv: seq<Host>, h: Host, fqdn: Resolver)
    requires NoAlias(pool, fqdn) && Elements(inv) <= pool && h in pool && DistinctIps(inv)
    ensures var after := Add(inv, h, fqdn);
            DistinctIps(after) && Elements(after) <= pool
            && (forall g :: g in after <==> g == h || (g in inv && g.ip != h.ip))
  {
    GetByIp(pool, inv, h.ip, fqdn);
    var found := Get(inv, h.ip, fqdn);
    if found.Some? {
      RemoveSpec(inv, found.value);
    }
    var kept := Evict(inv, found);
    assert forall g :: g in kept <==> g in inv && g.ip != h.ip;
    assert forall i :: 0 <= i < |kept| ==> kept[i] in kept;
    assert forall g :: g in kept + [h] ==> g in Elements(inv) || g == h;
  }

  /** Two hosts are enough to show that an alias breaks `get`. */
  lemma AliasBreaksGet(a: Host, b: Host, fqdn: Resolver)
    requires fqdn(a.ip) == b.ip && a.ip != b.ip
    ensures !Faithful(AddAll([a, b], fqdn), [a, b], fqdn)
  {
    assert [a, b][..1] == [a] && [a][..0] == [];
    assert AddAll([a], fqdn) == [a];
    assert AddAll([a, b], fqdn) == [b];
    assert LastAdded([a, b], a.ip) == LastAdded([a], a.ip) == Some(a);
    assert Get([b], a.ip, fqdn) != Some(a) by { assert [b][1..] == []; }
    assert a in [a, b];
  }

  /**
   Exactly when no name in the pool is another member's ip, every order of adding hosts from the
   pool, repetitions included, leaves each ip finding the host added last.
   */
  lemma FaithfulIffNoAlias(pool: set<Host>, fqdn: Resolver)
    ensures (forall hs :: Elements(hs) <= pool ==> Faithful(AddAll(hs, fqdn), hs, fqdn)) <==> NoAlias(pool, fqdn)
  {
    if NoAlias(pool, fqdn) {
      forall hs | Elements(hs) <= pool ensures Faithful(AddAll(hs, fqdn), hs, fqdn) {
        AddsAreFaithful(pool, hs, fqdn);
      }
    } else {
      var a, b :| a in pool && b in pool && fqdn(a.ip) == b.ip && a.ip != b.ip;
      AliasBreaksGet(a, b, fqdn);
      assert Elements([a, b]) <= pool;
    }
  }

  /** An alias can also leave two entries with one ip: the eviction hits the wrong host. */
  lemma AliasMakesDuplicates(a: Host, b1: Host, b2: Host, b3: Host, fqdn: Resolver)
    requires fqdn(a.ip) == b1.ip && a.ip != b1.ip && fqdn(b1.ip) != a.ip
    requires b1.ip == b2.ip == b3.ip
    ensures AddAll([b1, a, b2, b3], fqdn) == [b2, b3]
    ensures !DistinctIps(AddAll([b1, a, b2, b3], fqdn))
  {
    var hs := [b1, a, b2, b3];
    assert hs[..3] == [b1, a, b2] && hs[..3][..2] == [b1, a] && [b1, a][..1] == [b1] && [b1][..0] == [];
    assert AddAll([b1], fqdn) == [b1];
    assert Get([b1], a.ip, fqdn) == None by { assert [b1][1..] == []; }
    assert AddAll([b1, a], fqdn) == [b1, a];
    assert AddAll([b1, a, b2], fqdn) == [a, b2] by { assert [b1, a][1..] == [a]; }
    assert AddAll(hs, fqdn) == [b2, b3] by { assert [a, b2][1..] == [b2]; }
    assert [b2, b3][0].ip == [b2, b3][1].ip;
  }

  /** Aliases come in pairs: the host whose ip another's name is has the other's ip for a name. */
  ghost predicate Mutual(hs: set<Host>, fqdn: Resolver) {
    forall a, b :: a in hs && b in hs && fqdn(a.ip) == b.ip && a.ip != b.ip ==> fqdn(b.ip) == a.ip
  }

  /** Neither host is found under the other's ip. */
  predicate Unrelated(a: Host, b: Host, fqdn: Resolver) {
    !Matches(a, b.ip, fqdn) && !Matches(b, a.ip, fqdn)
  }

  ghost predicate AllUnrelated(inv: seq<Host>, fqdn: Resolver) {
    inv == [] || ((forall g :: g in inv[1..] ==> Unrelated(inv[0], g, fqdn)) && AllUnrelated(inv[1..], fqdn))
  }

  /** With mutual aliases an eviction leaves nobody who is found under that ip. */
  lemma {:induction false} EvictionLeavesNoMatch(pool: set<Host>, inv: seq<Host>, h: Host, fqdn: Resolver)
    requires Mutual(pool, fqdn) && Elements(inv) <= pool && h in pool && AllUnrelated(inv, fqdn)
    ensures var kept := Evict(inv, Get(inv, h.ip, fqdn));
            && (forall g :: g in kept ==> g in inv && Unrelated(g, h, fqdn))
            && AllUnrelated(kept, fqdn)
    decreases |inv|
  {
    if inv != [] {
      var first, rest := inv[0], inv[1..];
      assert forall g :: g in inv <==> g == first || g in rest;
      assert first in Elements(inv);
      if Matches(first, h.ip, fqdn) {
        forall g | g in rest ensures Unrelated(g, h, fqdn) {
          assert g in Elements(inv) && Unrelated(first, g, fqdn);
        }
      } else {
        assert Elements(rest) <= Elements(inv);
        EvictionLeavesNoMatch(pool, rest, h, fqdn);
        var found := Get(rest, h.ip, fqdn);
        var kept := Evict(rest, found);
        if found.Some? {
          FoundMatches(rest, h.ip, fqdn);
          assert Evict(inv, found) == [first] + kept;
        }
        assert Unrelated(first, h, fqdn);
        assert ([first] + kept)[1..] == kept;
      }
    }
  }

  lemma {:induction false} FoundMatches(inv: seq<Host>, key: string, fqdn: Resolver)
    requires Get(inv, key, fqdn).Some?
    ensures Matches(Get(inv, key, fqdn).value, key, fqdn)
    decreases |inv|
  {
    if !Matches(inv[0], key, fqdn) {
      FoundMatches(inv[1..], key, fqdn);
    }
  }

  lemma {:induction false} AppendUnrelated(inv: seq<Host>, h: Host, fqdn: Resolver)
    requires AllUnrelated(inv, fqdn) && forall g :: g in inv ==> Unrelated(g, h, fqdn)
    ensures AllUnrelated(inv + [h], fqdn)
    decreases |inv|
  {
    if inv == [] {
      assert (inv + [h])[1..] == [];
    } else {
      assert (inv + [h])[1..] == inv[1..] + [h];
      AppendUnrelated(inv[1..], h, fqdn);
    }
  }

  lemma {:induction false} AddsStayUnrelated(pool: set<Host>, hs: seq<Host>, fqdn: Resolver)
    requires Mutual(pool, fqdn) && Elements(hs) <= pool
    ensures AllUnrelated(AddAll(hs, fqdn), fqdn) && Elements(AddAll(hs, fqdn)) <= pool
    decreases |hs|
  {
    if hs != [] {
      var front, h := hs[..|hs| - 1], hs[|hs| - 1];
      assert Elements(front) <= Elements(hs) && h in Elements(hs);
      AddsStayUnrelated(pool, front, fqdn);
      var before := AddAll(front, fqdn);
      EvictionLeavesNoMatch(pool, before, h, fqdn);
      AppendUnrelated(Evict(before, Get(before, h.ip, fqdn)), h, fqdn);
      assert forall g :: g in AddAll(hs, fqdn) ==> g in Elements(before) || g == h;
    }
  }

  lemma {:induction false} UnrelatedIsDistinct(inv: seq<Host>, fqdn: Resolver)
    requires AllUnrelated(inv, fqdn)
    ensures DistinctIps(inv)
    decreases |inv|
  {
    if inv != [] {
      UnrelatedIsDistinct(inv[1..], fqdn);
      forall j | 0 < j < |inv| ensures inv[0].ip != inv[j].ip {
        assert inv[j] == inv[1..][j - 1] && inv[j] in inv[1..];
      }
    }
  }

  /**
   Exactly when all aliases of the pool are mutual, no order of adding hosts from it ever leaves two
   entries with one ip. `get` can still be wrong then.
   */
  lemma DistinctIffMutual(pool: set<Host>, fqdn: Resolver)
    ensures (forall hs :: Elements(hs) <= pool ==> DistinctIps(AddAll(hs, fqdn))) <==> Mutual(pool, fqdn)
  {
    if Mutual(pool, fqdn) {
      forall hs | Elements(hs) <= pool ensures DistinctIps(AddAll(hs, fqdn)) {
        AddsStayUnrelated(pool, hs, fqdn);
        UnrelatedIsDistinct(AddAll(hs, fqdn), fqdn);
      }
    } else {
      var a, b :| a in pool && b in pool && fqdn(a.ip) == b.ip && a.ip != b.ip && fqdn(b.ip) != a.ip;
      AliasMakesDuplicates(a, b, b, b, fqdn);
      assert Elements([b, a, b, b]) <= pool;
    }
  }

  // ---------------------------------------------------------------- concurrent adds

  /** Where a thread is in `add`. */
  datatype Phase = Outside | Locked | Found(host: Option<Host>) | Evicted | Appended

  datatype Thread = Thread(todo: seq<Host>, phase: Phase)

  datatype State = State(threads: seq<Thread>, lock: Option<nat>, inventory: seq<Host>, order: seq<(nat, Host)>)

  predicate Init(s: State, work: seq<seq<Host>>) {
    && s.lock == None && s.inventory == [] && s.order == [] && |s.threads| == |work|
    && forall t :: 0 <= t < |work| ==> s.threads[t] == Thread(work[t], Outside)
  }

  /** One statement of `add`, executed by thread `t`. `order` records who entered the critical section with what. */
  function Step(s: State, t: nat, fqdn: Resolver): Option<State>
    requires t < |s.threads|
  {
    var th := s.threads[t];
    if th.todo == [] then None
    else
      var h := th.todo[0];
      match th.phase
      case Outside =>
        if s.lock.Some? then None
        else Some(s.(lock := Some(t), threads := s.threads[t := th.(phase := Locked)], order := s.order + [(t, h)]))
      case Locked =>
        Some(s.(threads := s.threads[t := th.(phase := Found(Get(s.inventory, h.ip, fqdn)))]))
      case Found(host) =>
        Some(s.(threads := s.threads[t := th.(phase := Evicted)], inventory := Evict(s.inventory, host)))
      case Evicted =>
        Some(s.(threads := s.threads[t := th.(phase := Appended)], inventory := s.inventory + [h]))
      case Appended =>
        Some(s.(lock := None, threads := s.threads[t := Thread(th.todo[1..], Outside)]))
  }

  function Moved(s: State, t: nat, fqdn: Resolver): State {
    if t < |s.threads| && Step(s, t, fqdn).Some? then Step(s, t, fqdn).value else s
  }

  /** The state after the threads named in `schedule` took their steps in turn; blocked threads do not move. */
  function Execute(s: State, schedule: seq<nat>, fqdn: Resolver): State
    decreases |schedule|
  {
    if schedule == [] then s else Execute(Moved(s, schedule[0], fqdn), schedule[1..], fqdn)
  }

  function Hosts(order: seq<(nat, Host)>): seq<Host> {
    if order == [] then [] else Hosts(order[..|order| - 1]) + [order[|order| - 1].1]
  }

  /** What thread `t` has entered with, in order. */
  function Mine(order: seq<(nat, Host)>, t: nat): seq<Host> {
    if order == [] then []
    else
      var (u, h) := order[|order| - 1];
      Mine(order[..|order| - 1], t) + (if u == t then [h] else [])
  }

  /** The inventory is that of sequential adds, up to where the thread in the critical section is. */
  ghost predicate InSync(s: State, fqdn: Resolver) {
    match s.lock
    case None => s.inventory == AddAll(Hosts(s.order), fqdn)
    case Some(t) =>
      && t < |s.threads| && s.threads[t].todo != []
      && s.order != [] && s.order[|s.order| - 1] == (t, s.threads[t].todo[0])
      && var h := s.threads[t].todo[0];
         var before := AddAll(Hosts(s.order[..|s.order| - 1]), fqdn);
         match s.threads[t].phase
         case Outside => false
         case Locked => s.inventory == before
         case Found(host) => s.inventory == before && host == Get(before, h.ip, fqdn)
         case Evicted => s.inventory == Evict(before, Get(before, h.ip, fqdn))
         case Appended => s.inventory == Add(before, h, fqdn)
  }

  /** Thread `t` has entered with a front of its work; the rest is still to do. */
  ghost predicate Accounted(s: State, work: seq<seq<Host>>, t: nat)
    requires t < |s.threads| && t < |work|
  {
    var th := s.threads[t];
    if s.lock == Some(t) then th.todo != [] && Mine(s.order, t) + th.todo[1..] == work[t]
    else th.phase == Outside && Mine(s.order, t) + th.todo == work[t]
  }

  ghost predicate AllAccounted(s: State, work: seq<seq<Host>>) {
    |s.threads| == |work| && forall t :: 0 <= t < |work| ==> Accounted(s, work, t)
  }

  ghost predicate Inv(s: State, work: seq<seq<Host>>, fqdn: Resolver) {
    InSync(s, fqdn) && AllAccounted(s, work)
  }

  lemma StepKeepsSync(s: State, t: nat, work: seq<seq<Host>>, fqdn: Resolver)
    requires Inv(s, work, fqdn) && t < |s.threads| && Step(s, t, fqdn).Some?
    ensures InSync(Step(s, t, fqdn).value, fqdn)
  {
    var s' := Step(s, t, fqdn).value;
    assert Accounted(s, work, t);
    if s.lock == None {
      assert s'.order[..|s'.order| - 1] == s.order;
    } else {
      assert s.lock == Some(t);
    }
  }

  lemma StepKeepsAccount(s: State, t: nat, u: nat, work: seq<seq<Host>>, fqdn: Resolver)
    requires t < |s.threads| == |work| && u < |work| && Step(s, t, fqdn).Some?
    requires Accounted(s, work, t) && Accounted(s, work, u) && (s.lock.Some? ==> s.lock == Some(t))
    ensures Accounted(Step(s, t, fqdn).value, work, u)
  {
    var s' := Step(s, t, fqdn).value;
    if s.lock == None {
      var th := s.threads[t];
      assert s'.order[..|s'.order| - 1] == s.order;
      assert Mine(s'.order, u) == Mine(s.order, u) + (if u == t then [th.todo[0]] else []);
      if u == t {
        assert Mine(s.order, t) + th.todo == (Mine(s.order, t) + [th.todo[0]]) + th.todo[1..];
      } else {
        assert Mine(s.order, u) + [] == Mine(s.order, u);
      }
    }
  }

  lemma StepKeepsInv(s: State, t: nat, work: seq<seq<Host>>, fqdn: Resolver)
    requires Inv(s, work, fqdn) && t < |s.threads| && Step(s, t, fqdn).Some?
    ensures Inv(Step(s, t, fqdn).value, work, fqdn)
  {
    StepKeepsSync(s, t, work, fqdn);
    assert Accounted(s, work, t);
    assert s.lock.Some? ==> s.lock == Some(t);
    forall u | 0 <= u < |work| ensures Accounted(Step(s, t, fqdn).value, work, u) {
      StepKeepsAccount(s, t, u, work, fqdn);
    }
  }

  /** Every interleaving of the threads' statements keeps the invariant. */
  lemma {:induction false} ExecutionsKeepInv(s: State, schedule: seq<nat>, work: seq<seq<Host>>, fqdn: Resolver)
    requires Inv(s, work, fqdn)
    ensures Inv(Execute(s, schedule, fqdn), work, fqdn)
    decreases |schedule|
  {
    if schedule != [] {
      var t := schedule[0];
      if t < |s.threads| && Step(s, t, fqdn).Some? {
        StepKeepsInv(s, t, work, fqdn);
        ExecutionsKeepInv(Step(s, t, fqdn).value, schedule[1..], work, fqdn);
      } else {
        ExecutionsKeepInv(s, schedule[1..], work, fqdn);
      }
    }
  }

  /**
   Whatever the interleaving, whenever the lock is free the inventory is the one that adding the
   hosts one after the other gives, in the order the lock was taken; each thread's hosts stand in
   that order as the thread added them, none lost and none twice.
   */
  lemma ConcurrentAddsAreSequential(s: State, schedule: seq<nat>, work: seq<seq<Host>>, fqdn: Resolver)
    requires Init(s, work)
    ensures var end := Execute(s, schedule, fqdn);
            end.lock == None ==>
              && end.inventory == AddAll(Hosts(end.order), fqdn)
              && |end.threads| == |work|
              && forall t :: 0 <= t < |work| ==> Mine(end.order, t) + end.threads[t].todo == work[t]
  {
    InitIsInv(s, work, fqdn);
    ExecutionsKeepInv(s, schedule, work, fqdn);
    var end := Execute(s, schedule, fqdn);
    forall t | 0 <= t < |work| && end.lock == None ensures Mine(end.order, t) + end.threads[t].todo == work[t] {
      assert Accounted(end, work, t);
    }
  }

  /**
   So without aliases no interleaving ever has two entries with one ip, not even inside the critical
   section; and whenever the lock is free every ip finds the host that was added last under it.
   */
  lemma ConcurrentAddsAreFaithful(s: State, schedule: seq<nat>, work: seq<seq<Host>>, pool: set<Host>, fqdn: Resolver)
    requires Init(s, work) && NoAlias(pool, fqdn)
    requires forall t :: 0 <= t < |work| ==> Elements(work[t]) <= pool
    ensures var end := Execute(s, schedule, fqdn);
            DistinctIps(end.inventory) && (end.lock == None ==> Faithful(end.inventory, Hosts(end.order), fqdn))
  {
    var end := Execute(s, schedule, fqdn);
    InitIsInv(s, work, fqdn);
    ExecutionsKeepInv(s, schedule, work, fqdn);
    OrderHolds(s, schedule, work, pool, fqdn);
    SyncedIsDistinct(end, pool, fqdn);
    AddsAreFaithful(pool, Hosts(end.order), fqdn);
  }

  lemma SyncedIsDistinct(s: State, pool: set<Host>, fqdn: Resolver)
    requires InSync(s, fqdn) && NoAlias(pool, fqdn) && Elements(Hosts(s.order)) <= pool
    ensures DistinctIps(s.inventory)
  {
    AddsAreFaithful(pool, Hosts(s.order), fqdn);
    if s.lock.Some? {
      var earlier, h := Hosts(s.order[..|s.order| - 1]), s.order[|s.order| - 1].1;
      assert Hosts(s.order) == earlier + [h];
      assert h in Elements(Hosts(s.order)) && Elements(earlier) <= Elements(Hosts(s.order));
      AddsAreFaithful(pool, earlier, fqdn);
      EvictionKeepsDistinct(pool, AddAll(earlier, fqdn), h, fqdn);
      AddOne(pool, AddAll(earlier, fqdn), h, fqdn);
    }
  }

  lemma EvictionKeepsDistinct(pool: set<Host>, inv: seq<Host>, h: Host, fqdn: Resolver)
    requires NoAlias(pool, fqdn) && Elements(inv) <= pool && h in pool && DistinctIps(inv)
    ensures DistinctIps(Evict(inv, Get(inv, h.ip, fqdn)))
  {
    GetByIp(pool, inv, h.ip, fqdn);
    var found := Get(inv, h.ip, fqdn);
    if found.Some? {
      RemoveSpec(inv, found.value);
    }
  }

  lemma InitIsInv(s: State, work: seq<seq<Host>>, fqdn: Resolver)
    requires Init(s, work)
    ensures Inv(s, work, fqdn)
  {
    forall t | 0 <= t < |work| ensures Mine([], t) + s.threads[t].todo == work[t] {
      assert [] + work[t] == work[t];
    }
  }

  ghost predicate Drawn(s: State, pool: set<Host>) {
    && Elements(Hosts(s.order)) <= pool
    && forall t :: 0 <= t < |s.threads| ==> Elements(s.threads[t].todo) <= pool
  }

  lemma OrderHolds(s: State, schedule: seq<nat>, work: seq<seq<Host>>, pool: set<Host>, fqdn: Resolver)
    requires Init(s, work) && forall t :: 0 <= t < |work| ==> Elements(work[t]) <= pool
    ensures Elements(Hosts(Execute(s, schedule, fqdn).order)) <= pool
  {
    ExecutionsKeepDrawn(s, schedule, pool, fqdn);
  }

  lemma {:induction false} ExecutionsKeepDrawn(s: State, schedule: seq<nat>, pool: set<Host>, fqdn: Resolver)
    requires Drawn(s, pool)
    ensures Drawn(Execute(s, schedule, fqdn), pool)
    decreases |schedule|
  {
    if schedule != [] {
      var t := schedule[0];
      if t < |s.threads| && Step(s, t, fqdn).Some? {
        StepKeepsDrawn(s, t, pool, fqdn);
        ExecutionsKeepDrawn(Step(s, t, fqdn).value, schedule[1..], pool, fqdn);
      } else {
        ExecutionsKeepDrawn(s, schedule[1..], pool, fqdn);
      }
    }
  }

  lemma StepKeepsDrawn(s: State, t: nat, pool: set<Host>, fqdn: Resolver)
    requires Drawn(s, pool) && t < |s.threads| && Step(s, t, fqdn).Some?
    ensures Drawn(Step(s, t, fqdn).value, pool)
  {
    var s', th := Step(s, t, fqdn).value, s.threads[t];
    assert Elements(th.todo) <= pool && th.todo[0] in Elements(th.todo);
    assert Elements(th.todo[1..]) <= Elements(th.todo);
    if th.phase == Outside {
      assert s'.order[..|s'.order| - 1] == s.order;
      assert Hosts(s'.order) == Hosts(s.order) + [th.todo[0]];
      assert forall h :: h in Elements(Hosts(s'.order)) ==> h in Elements(Hosts(s.order)) || h == th.todo[0];
    }
  }

  // ---------------------------------------------------------------- the list at any one moment

  /** The hosts whose `append` has been executed, in order. */
  function Added(s: State): seq<Host>
    requires s.lock.Some? ==> s.lock.value < |s.threads| && s.order != []
  {
    if s.lock == None || s.threads[s.lock.value].phase == Appended then Hosts(s.order)
    else Hosts(s.order[..|s.order| - 1])
  }

  /** Some thread has evicted the host with that ip and not yet appended its successor. */
  predicate InGap(s: State, ip: string) {
    s.lock.Some? && s.lock.value < |s.threads| &&
    var th := s.threads[s.lock.value]; th.phase == Evicted && th.todo != [] && th.todo[0].ip == ip
  }

  /**
   In every state of every interleaving, searching the whole list as it stands gives, under every ip
   added so far, the host added last, except in the gap between evicting and appending: there, and
   only there, it gives nothing. (What a search finds that is itself interleaved is in module Scanning.)
   */
  lemma ListMissesIffInGap(s: State, schedule: seq<nat>, work: seq<seq<Host>>, pool: set<Host>, fqdn: Resolver)
    requires Init(s, work) && NoAlias(pool, fqdn)
    requires forall t :: 0 <= t < |work| ==> Elements(work[t]) <= pool
    ensures var end := Execute(s, schedule, fqdn);
            && (end.lock.Some? ==> end.lock.value < |end.threads| && end.order != [])
            && forall h :: h in Added(end) ==>
                 if InGap(end, h.ip) then Get(end.inventory, h.ip, fqdn) == None
                 else Get(end.inventory, h.ip, fqdn) == LastAdded(Added(end), h.ip) != None
  {
    var end := Execute(s, schedule, fqdn);
    InitIsInv(s, work, fqdn);
    ExecutionsKeepInv(s, schedule, work, fqdn);
    OrderHolds(s, schedule, work, pool, fqdn);
    forall h | h in Added(end)
      ensures if InGap(end, h.ip) then Get(end.inventory, h.ip, fqdn) == None
              else Get(end.inventory, h.ip, fqdn) == LastAdded(Added(end), h.ip) != None
    {
      GetInState(end, h, pool, fqdn);
    }
  }

  lemma GetInState(s: State, h: Host, pool: set<Host>, fqdn: Resolver)
    requires InSync(s, fqdn) && NoAlias(pool, fqdn) && Elements(Hosts(s.order)) <= pool && h in Added(s)
    ensures if InGap(s, h.ip) then Get(s.inventory, h.ip, fqdn) == None
            else Get(s.inventory, h.ip, fqdn) == LastAdded(Added(s), h.ip) != None
  {
    LastAddedExists(Added(s), h);
    if s.lock == None {
      AddsAreFaithful(pool, Hosts(s.order), fqdn);
    } else {
      var earlier, g := Hosts(s.order[..|s.order| - 1]), s.order[|s.order| - 1].1;
      assert Hosts(s.order) == earlier + [g];
      assert g in Elements(Hosts(s.order)) && Elements(earlier) <= Elements(Hosts(s.order));
      assert Hosts(s.order)[..|earlier|] == earlier;
      AddsAreFaithful(pool, Hosts(s.order), fqdn);
      AddsAreFaithful(pool, earlier, fqdn);
      if s.threads[s.lock.value].phase == Evicted {
        assert h in Elements(earlier) && h in pool;
        GetAfterEviction(pool, AddAll(earlier, fqdn), g, h.ip, fqdn);
      }
    }
  }

  lemma {:induction false} LastAddedExists(hs: seq<Host>, h: Host)
    requires h in hs
    ensures LastAdded(hs, h.ip) != None
    decreases |hs|
  {
    if hs[|hs| - 1].ip != h.ip {
      LastAddedExists(hs[..|hs| - 1], h);
    }
  }

  /** Evicting for `g` hides the hosts with the ip of `g`, and no others. */
  lemma GetAfterEviction(pool: set<Host>, inv: seq<Host>, g: Host, ip: string, fqdn: Resolver)
    requires NoAlias(pool, fqdn) && Elements(inv) <= pool && g in pool && DistinctIps(inv)
    requires exists h :: h in pool && h.ip == ip
    ensures var kept := Evict(inv, Get(inv, g.ip, fqdn));
            Get(kept, ip, fqdn) == if ip == g.ip then None else Get(inv, ip, fqdn)
  {
    GetByIp(pool, inv, g.ip, fqdn);
    GetByIp(pool, inv, ip, fqdn);
    var found := Get(inv, g.ip, fqdn);
    if found.Some? {
      RemoveSpec(inv, found.value);
    }
    var kept := Evict(inv, found);
    assert forall h :: h in kept <==> h in inv && h.ip != g.ip;
    assert Elements(kept) <= pool by { assert forall h :: h in kept ==> h in Elements(inv); }
    GetByIp(pool, kept, ip, fqdn);
    OneEntryPerIp(inv);
  }

  lemma OneEntryPerIp(inv: seq<Host>)
    requires DistinctIps(inv)
    ensures forall g, h :: g in inv && h in inv && g.ip == h.ip ==> g == h
  {
  }

  /** Thread `t` is about to add `h`, and no thread is in the critical section. */
  predicate Ready(s: State, t: nat, h: Host) {
    && s.lock == None && t < |s.threads| && s.threads[t].phase == Outside
    && s.threads[t].todo != [] && s.threads[t].todo[0] == h
  }

  /** Three steps take the thread to the gap, five through the whole of `add`; nobody else moves. */
  lemma StepsOfAdd(s: State, t: nat, h: Host, fqdn: Resolver)
    requires Ready(s, t, h)
    ensures var gap := Moved(Moved(Moved(s, t, fqdn), t, fqdn), t, fqdn);
            && gap.order == s.order + [(t, h)] && gap.lock == Some(t) && |gap.threads| == |s.threads|
            && InGap(gap, h.ip) && gap.inventory == Evict(s.inventory, Get(s.inventory, h.ip, fqdn))
            && var end := Moved(Moved(gap, t, fqdn), t, fqdn);
               && end.order == s.order + [(t, h)] && end.lock == None && |end.threads| == |s.threads|
               && end.inventory == Add(s.inventory, h, fqdn)
               && forall u :: 0 <= u < |s.threads| && u != t ==> end.threads[u] == s.threads[u]
  {
  }

  lemma {:induction false} ExecuteOneMore(s: State, schedule: seq<nat>, t: nat, fqdn: Resolver)
    ensures Execute(s, schedule + [t], fqdn) == Moved(Execute(s, schedule, fqdn), t, fqdn)
    decreases |schedule|
  {
    if schedule == [] {
      assert schedule + [t] == [t] && [t][1..] == [];
    } else {
      assert (schedule + [t])[1..] == schedule[1..] + [t];
      ExecuteOneMore(Moved(s, schedule[0], fqdn), schedule[1..], t, fqdn);
    }
  }

  /** Adding one host after another under one ip: some schedule leads to the gap. */
  lemma GapIsReached(s: State, g: Host, h: Host, fqdn: Resolver) returns (schedule: seq<nat>)
    requires Init(s, [[g], [h]]) && g.ip == h.ip
    ensures var end := Execute(s, schedule, fqdn);
            && end.lock == Some(1) && |end.threads| == 2 && end.order != [] && g in Added(end)
            && InGap(end, g.ip) && Get(end.inventory, g.ip, fqdn) == None
  {
    schedule := Five(s, 0, fqdn);
    StepsOfAdd(s, 0, g, fqdn);
    var mid := Execute(s, schedule, fqdn);
    assert mid.inventory == [g];
    StepsOfAdd(mid, 1, h, fqdn);
    schedule := ThreeMore(s, schedule, 1, fqdn);
    AddedBeforeGap(Execute(s, schedule, fqdn), mid.order, 1, h);
    OnlyHost(g, mid.order);
  }

  lemma AddedBeforeGap(s: State, before: seq<(nat, Host)>, t: nat, h: Host)
    requires s.order == before + [(t, h)] && InGap(s, h.ip)
    ensures Added(s) == Hosts(before)
  {
    assert s.order[..|s.order| - 1] == before;
  }

  lemma OnlyHost(g: Host, order: seq<(nat, Host)>)
    requires order == [(0, g)]
    ensures g in Hosts(order)
  {
  }

  lemma {:induction false} ExecuteConcat(s: State, a: seq<nat>, b: seq<nat>, fqdn: Resolver)
    ensures Execute(s, a + b, fqdn) == Execute(Execute(s, a, fqdn), b, fqdn)
    decreases |a|
  {
    if a == [] {
      assert a + b == b;
    } else {
      assert (a + b)[1..] == a[1..] + b;
      ExecuteConcat(Moved(s, a[0], fqdn), a[1..], b, fqdn);
    }
  }

  lemma ThreeMore(s: State, schedule: seq<nat>, t: nat, fqdn: Resolver) returns (longer: seq<nat>)
    ensures Execute(s, longer, fqdn) == Moved(Moved(Moved(Execute(s, schedule, fqdn), t, fqdn), t, fqdn), t, fqdn)
  {
    ExecuteOneMore(s, schedule, t, fqdn);
    ExecuteOneMore(s, schedule + [t], t, fqdn);
    ExecuteOneMore(s, schedule + [t] + [t], t, fqdn);
    longer := schedule + [t] + [t] + [t];
  }

  lemma Five(s: State, t: nat, fqdn: Resolver) returns (schedule: seq<nat>)
    ensures Execute(s, schedule, fqdn)
         == Moved(Moved(Moved(Moved(Moved(s, t, fqdn), t, fqdn), t, fqdn), t, fqdn), t, fqdn)
  {
    var three := ThreeMore(s, [], t, fqdn);
    ExecuteOneMore(s, three, t, fqdn);
    ExecuteOneMore(s, three + [t], t, fqdn);
    schedule := three + [t] + [t];
  }
}

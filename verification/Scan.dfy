/**
 `Host.get` of rrmngmnt/host.py as it runs beside `add`: it takes no lock and walks the live list one
 entry after the other, asking for the name of each, while other threads remove entries in front of
 it or behind it and append new ones.
 */
module Scanning {
  import opened Wrappers
  import opened Inventory

  // ---------------------------------------------------------------- one scan among the threads

  /** The list iterator's index, the first match so far, and whether the iterator is exhausted. */
  datatype Scan = Scan(pos: nat, found: Option<Host>, done: bool)

  datatype World = World(s: State, scan: Scan)

  /** A statement of a thread's `add`, or the scan's next look at the list. */
  datatype Turn = Work(t: nat) | Look

  /** The next look: at the entry that stands at the index now, or past the end of the list as it is now. */
  function Looked(inv: seq<Host>, scan: Scan, key: string, fqdn: Resolver): Scan {
    if scan.done then scan
    else if scan.pos < |inv| then
      var h := inv[scan.pos];
      Scan(scan.pos + 1, if scan.found == None && Matches(h, key, fqdn) then Some(h) else scan.found, false)
    else scan.(done := true)
  }

  function Take(w: World, turn: Turn, key: string, fqdn: Resolver): World {
    match turn
    case Work(t) => w.(s := Moved(w.s, t, fqdn))
    case Look => w.(scan := Looked(w.s.inventory, w.scan, key, fqdn))
  }

  function Run(w: World, turns: seq<Turn>, key: string, fqdn: Resolver): World
    decreases |turns|
  {
    if turns == [] then w else Run(Take(w, turns[0], key, fqdn), turns[1..], key, fqdn)
  }

  const FRESH := Scan(0, None, false)

  // ---------------------------------------------------------------- left alone

  function Looks(n: nat): seq<Turn> {
    if n == 0 then [] else [Look] + Looks(n - 1)
  }

  /** A scan that nobody disturbs is `Get`: it ends one look behind the last entry, with the earliest match. */
  lemma UndisturbedScanIsGet(s: State, key: string, fqdn: Resolver)
    ensures var end := Run(World(s, FRESH), Looks(|s.inventory| + 1), key, fqdn);
            end.s == s && end.scan.done && end.scan.found == Get(s.inventory, key, fqdn)
  {
    assert s.inventory[0..] == s.inventory;
    UndisturbedFrom(World(s, FRESH), key, fqdn);
  }

  lemma {:induction false} UndisturbedFrom(w: World, key: string, fqdn: Resolver)
    requires !w.scan.done && w.scan.pos <= |w.s.inventory|
    ensures var inv := w.s.inventory; var end := Run(w, Looks(|inv| - w.scan.pos + 1), key, fqdn);
            && end.s == w.s && end.scan.done
            && end.scan.found == if w.scan.found.Some? then w.scan.found else Get(inv[w.scan.pos..], key, fqdn)
    decreases |w.s.inventory| - w.scan.pos
  {
    var inv, pos := w.s.inventory, w.scan.pos;
    var looks := Looks(|inv| - pos + 1);
    assert looks[0] == Look && looks[1..] == Looks(|inv| - pos);
    var next := Take(w, Look, key, fqdn);
    if pos < |inv| {
      assert inv[pos..][0] == inv[pos] && inv[pos..][1..] == inv[pos + 1..];
      UndisturbedFrom(next, key, fqdn);
    } else {
      assert Looks(0) == [] && inv[pos..] == [];
    }
  }

  // ---------------------------------------------------------------- what the threads do to the list

  /** The thread's next statement removes the entry at index `j`. */
  predicate EvictsAt(s: State, t: nat, j: nat) {
    t < |s.threads| && s.threads[t].todo != [] && j < |s.inventory| && s.threads[t].phase == Found(Some(s.inventory[j]))
  }

  /** The thread's next statement appends its host. */
  predicate Appends(s: State, t: nat) {
    t < |s.threads| && s.threads[t].todo != [] && s.threads[t].phase == Evicted
  }

  function Without(inv: seq<Host>, j: nat): seq<Host>
    requires j < |inv|
  {
    inv[..j] + inv[j + 1..]
  }

  /** A state of some interleaving of threads that add hosts of the pool. */
  ghost predicate Reached(s: State, work: seq<seq<Host>>, pool: set<Host>, fqdn: Resolver) {
    Inv(s, work, fqdn) && Drawn(s, pool) && NoAlias(pool, fqdn)
  }

  lemma MovedIsReached(s: State, t: nat, work: seq<seq<Host>>, pool: set<Host>, fqdn: Resolver)
    requires Reached(s, work, pool, fqdn)
    ensures Reached(Moved(s, t, fqdn), work, pool, fqdn)
  {
    if t < |s.threads| && Step(s, t, fqdn).Some? {
      StepKeepsInv(s, t, work, fqdn);
      StepKeepsDrawn(s, t, pool, fqdn);
    }
  }

  /** The list of such a state has distinct ips, and hosts of the pool only. */
  lemma ReachedList(s: State, work: seq<seq<Host>>, pool: set<Host>, fqdn: Resolver)
    requires Reached(s, work, pool, fqdn)
    ensures DistinctIps(s.inventory) && Elements(s.inventory) <= pool
  {
    SyncedIsDistinct(s, pool, fqdn);
    AddsAreFaithful(pool, Hosts(s.order), fqdn);
    if s.lock.Some? {
      var earlier, h := Hosts(s.order[..|s.order| - 1]), s.order[|s.order| - 1].1;
      assert Hosts(s.order) == earlier + [h];
      assert h in Elements(Hosts(s.order)) && Elements(earlier) <= Elements(Hosts(s.order));
      AddsAreFaithful(pool, earlier, fqdn);
      var before := AddAll(earlier, fqdn);
      var found := Get(before, h.ip, fqdn);
      EvictIsSmaller(before, found);
      assert Elements(Evict(before, found)) <= Elements(before);
      AddOne(pool, before, h, fqdn);
    }
  }

  lemma EvictIsSmaller(inv: seq<Host>, found: Option<Host>)
    ensures forall h :: h in Evict(inv, found) ==> h in inv
  {
    if found.Some? {
      RemoveIsSmaller(inv, found.value);
    }
  }

  lemma {:induction false} RemoveIsSmaller(inv: seq<Host>, h: Host)
    ensures forall g :: g in Remove(inv, h) ==> g in inv
    decreases |inv|
  {
    if inv != [] {
      RemoveIsSmaller(inv[1..], h);
    }
  }

  /** Every statement leaves the list alone, appends a host, or removes the one entry that was found. */
  lemma ListChange(s: State, t: nat, work: seq<seq<Host>>, pool: set<Host>, fqdn: Resolver)
    requires Reached(s, work, pool, fqdn)
    ensures var after := Moved(s, t, fqdn).inventory;
            && (Appends(s, t) ==> after == s.inventory + [s.threads[t].todo[0]])
            && (forall j: nat :: EvictsAt(s, t, j) ==> after == Without(s.inventory, j))
            && (!Appends(s, t) && (forall j: nat :: !EvictsAt(s, t, j)) ==> after == s.inventory)
  {
    ReachedList(s, work, pool, fqdn);
    if t < |s.threads| && s.threads[t].todo != [] && s.threads[t].phase.Found? && s.threads[t].phase.host.Some? {
      assert Accounted(s, work, t);
      assert s.lock == Some(t);
      var h := s.threads[t].phase.host.value;
      GetIsIn(s.inventory, s.threads[t].todo[0].ip, fqdn);
      var j: nat :| j < |s.inventory| && s.inventory[j] == h;
      assert EvictsAt(s, t, j);
      RemoveAt(s.inventory, j);
      forall k: nat | EvictsAt(s, t, k) ensures k == j { }
    }
  }

  lemma {:induction false} GetIsIn(inv: seq<Host>, key: string, fqdn: Resolver)
    ensures var r := Get(inv, key, fqdn); r.Some? ==> r.value in inv
    decreases |inv|
  {
    if inv != [] {
      GetIsIn(inv[1..], key, fqdn);
    }
  }

  lemma {:induction false} RemoveAt(inv: seq<Host>, j: nat)
    requires DistinctIps(inv) && j < |inv|
    ensures Remove(inv, inv[j]) == Without(inv, j)
    decreases j
  {
    if j > 0 {
      RemoveAt(inv[1..], j - 1);
      assert Without(inv, j) == [inv[0]] + Without(inv[1..], j - 1);
    }
  }

  // ---------------------------------------------------------------- how a scan misses

  /** An entry with that ip stands at the scan's index or behind it. */
  predicate Ahead(inv: seq<Host>, pos: nat, key: string) {
    exists j :: pos <= j < |inv| && inv[j].ip == key
  }

  /** The scan has found nothing yet and would, if it were left alone now. */
  predicate Waiting(w: World, key: string) {
    !w.scan.done && w.scan.found == None && Ahead(w.s.inventory, w.scan.pos, key)
  }

  predicate Searching(w: World) {
    !w.scan.done && w.scan.found == None
  }

  /** The entry searched for is itself evicted, before the scan comes to it. */
  ghost predicate EvictedAhead(w: World, turn: Turn, key: string) {
    Searching(w) && turn.Work? &&
    exists j: nat :: EvictsAt(w.s, turn.t, j) && w.scan.pos <= j && w.s.inventory[j].ip == key
  }

  /** An entry the scan has passed is evicted, and the next one moves under the index: it is never looked at. */
  ghost predicate ShiftedPast(w: World, turn: Turn, key: string) {
    Searching(w) && turn.Work? &&
    exists j: nat :: EvictsAt(w.s, turn.t, j) && j < w.scan.pos < |w.s.inventory| && w.s.inventory[w.scan.pos].ip == key
  }

  ghost predicate Loses(w: World, turn: Turn, key: string) {
    EvictedAhead(w, turn, key) || ShiftedPast(w, turn, key)
  }

  /** A host with that ip is appended where the scan is still to come. */
  predicate Regains(w: World, turn: Turn, key: string) {
    Searching(w) && turn.Work? && Appends(w.s, turn.t) && w.s.threads[turn.t].todo[0].ip == key
    && w.scan.pos <= |w.s.inventory|
  }

  /** What one turn does to the prospects of a scan. */
  lemma TurnSpec(w: World, turn: Turn, key: string, work: seq<seq<Host>>, pool: set<Host>, fqdn: Resolver)
    requires Reached(w.s, work, pool, fqdn) && exists g :: g in pool && g.ip == key
    ensures var next := Take(w, turn, key, fqdn);
            && (w.scan.found.Some? ==> next.scan.found == w.scan.found)
            && (w.scan.found == None && next.scan.found.Some? ==>
                  turn == Look && Waiting(w, key) && next.scan.found == Get(w.s.inventory, key, fqdn))
            && (Waiting(w, key) && next.scan.found == None ==> (!Waiting(next, key) <==> Loses(w, turn, key)))
            && (w.scan.found == None && !Waiting(w, key) ==> (Waiting(next, key) <==> Regains(w, turn, key)))
            && (Loses(w, turn, key) ==> Waiting(w, key) && next.scan.found == None)
            && (Regains(w, turn, key) ==> next.scan.found == None && Waiting(next, key))
  {
    ReachedList(w.s, work, pool, fqdn);
    match turn
    case Look => LookSpec(w, key, pool, fqdn);
    case Work(t) =>
      ListChange(w.s, t, work, pool, fqdn);
      var inv, pos := w.s.inventory, w.scan.pos;
      if Appends(w.s, t) {
        AheadOfAppend(inv, w.s.threads[t].todo[0], pos, key);
      } else if j: nat :| EvictsAt(w.s, t, j) {
        AheadOfEviction(inv, j, pos, key);
        forall k: nat | EvictsAt(w.s, t, k) ensures k == j { }
      }
  }

  lemma LookSpec(w: World, key: string, pool: set<Host>, fqdn: Resolver)
    requires NoAlias(pool, fqdn) && DistinctIps(w.s.inventory) && Elements(w.s.inventory) <= pool
    requires exists g :: g in pool && g.ip == key
    ensures var next := Take(w, Look, key, fqdn);
            && (w.scan.found.Some? ==> next.scan.found == w.scan.found)
            && (w.scan.found == None && next.scan.found.Some? ==>
                  Waiting(w, key) && next.scan.found == Get(w.s.inventory, key, fqdn))
            && (w.scan.found == None && next.scan.found == None ==> (Waiting(next, key) <==> Waiting(w, key)))
  {
    var inv, pos := w.s.inventory, w.scan.pos;
    if Searching(w) && pos < |inv| {
      assert inv[pos] in Elements(inv);
      AliasFreeMatch(pool, inv[pos], key, fqdn);
      if inv[pos].ip == key {
        assert Ahead(inv, pos, key);
        GetByIp(pool, inv, key, fqdn);
        OneEntryPerIp(inv);
      }
    }
  }

  lemma AheadOfAppend(inv: seq<Host>, h: Host, pos: nat, key: string)
    ensures Ahead(inv + [h], pos, key) <==> Ahead(inv, pos, key) || (h.ip == key && pos <= |inv|)
  {
    var after := inv + [h];
    if j :| pos <= j < |inv| && inv[j].ip == key {
      assert after[j] == inv[j];
    }
    if h.ip == key && pos <= |inv| {
      assert after[|inv|] == h;
    }
  }

  /** Removing an entry takes the one that is ahead exactly when it is that one, or pulls it under the index. */
  lemma AheadOfEviction(inv: seq<Host>, j: nat, pos: nat, key: string)
    requires DistinctIps(inv) && j < |inv|
    ensures Ahead(Without(inv, j), pos, key) <==>
            && Ahead(inv, pos, key)
            && !(pos <= j && inv[j].ip == key)
            && !(j < pos < |inv| && inv[pos].ip == key)
  {
    var after := Without(inv, j);
    assert forall i :: 0 <= i < |after| ==> after[i] == if i < j then inv[i] else inv[i + 1];
    if i :| pos <= i < |after| && after[i].ip == key {
      var k := if i < j then i else i + 1;
      assert inv[k].ip == key;
    }
    if m :| pos <= m < |inv| && inv[m].ip == key {
      if m < j {
        assert after[m] == inv[m];
      } else if m > j && m > pos {
        assert after[m - 1] == inv[m];
      }
    }
  }

  // ---------------------------------------------------------------- whole scans

  ghost predicate NeverRegains(w: World, turns: seq<Turn>, key: string, fqdn: Resolver)
    decreases |turns|
  {
    turns == [] || (!Regains(w, turns[0], key) && NeverRegains(Take(w, turns[0], key, fqdn), turns[1..], key, fqdn))
  }

  /** At some turn the scan loses the entry, and at no later turn one comes back ahead of it. */
  ghost predicate LostForGood(w: World, turns: seq<Turn>, key: string, fqdn: Resolver)
    decreases |turns|
  {
    turns != [] &&
    var next := Take(w, turns[0], key, fqdn);
    (Loses(w, turns[0], key) && NeverRegains(next, turns[1..], key, fqdn)) || LostForGood(next, turns[1..], key, fqdn)
  }

  /** At some look `h` was what searching the whole list at that moment gives. */
  ghost predicate CurrentAtSomeLook(w: World, turns: seq<Turn>, h: Host, key: string, fqdn: Resolver)
    decreases |turns|
  {
    turns != [] &&
    ((turns[0] == Look && Get(w.s.inventory, key, fqdn) == Some(h))
     || CurrentAtSomeLook(Take(w, turns[0], key, fqdn), turns[1..], h, key, fqdn))
  }

  lemma {:induction false} ScanFrom(w: World, turns: seq<Turn>, key: string,
                                    work: seq<seq<Host>>, pool: set<Host>, fqdn: Resolver)
    requires Reached(w.s, work, pool, fqdn) && exists g :: g in pool && g.ip == key
    requires Run(w, turns, key, fqdn).scan.done
    ensures var found := Run(w, turns, key, fqdn).scan.found;
            && (w.scan.found.Some? ==> found == w.scan.found && !LostForGood(w, turns, key, fqdn))
            && (Waiting(w, key) ==> (found == None <==> LostForGood(w, turns, key, fqdn)))
            && (w.scan.found == None && !Waiting(w, key) ==>
                  (found == None <==> NeverRegains(w, turns, key, fqdn) || LostForGood(w, turns, key, fqdn)))
            && (w.scan.found == None && found.Some? ==> CurrentAtSomeLook(w, turns, found.value, key, fqdn))
    decreases |turns|
  {
    if turns != [] {
      var next := Take(w, turns[0], key, fqdn);
      TurnSpec(w, turns[0], key, work, pool, fqdn);
      if turns[0].Work? {
        MovedIsReached(w.s, turns[0].t, work, pool, fqdn);
      }
      ScanFrom(next, turns[1..], key, work, pool, fqdn);
    }
  }

  /**
   A `get` beside any number of adding threads, begun in any state they can reach and interleaved with
   them in any way, ends without a host exactly when it lost the entry for good, by that entry's own
   eviction or by an eviction that moved it under the scan's index, or when there was none at the
   beginning and none was appended in time. If it ends with a host, that host was the right one at
   the look that found it.
   */
  lemma ScanMissesIffLost(s: State, schedule: seq<nat>, turns: seq<Turn>, key: string,
                          work: seq<seq<Host>>, pool: set<Host>, fqdn: Resolver)
    requires Init(s, work) && NoAlias(pool, fqdn) && exists g :: g in pool && g.ip == key
    requires forall t :: 0 <= t < |work| ==> Elements(work[t]) <= pool
    requires Run(World(Execute(s, schedule, fqdn), FRESH), turns, key, fqdn).scan.done
    ensures var w := World(Execute(s, schedule, fqdn), FRESH); var found := Run(w, turns, key, fqdn).scan.found;
            && (found == None <==>
                  || LostForGood(w, turns, key, fqdn)
                  || (!Ahead(w.s.inventory, 0, key) && NeverRegains(w, turns, key, fqdn)))
            && (found.Some? ==> found.value.ip == key && CurrentAtSomeLook(w, turns, found.value, key, fqdn))
  {
    InitIsInv(s, work, fqdn);
    ExecutionsKeepInv(s, schedule, work, fqdn);
    ExecutionsKeepDrawn(s, schedule, pool, fqdn);
    var w := World(Execute(s, schedule, fqdn), FRESH);
    ScanFrom(w, turns, key, work, pool, fqdn);
    var found := Run(w, turns, key, fqdn).scan.found;
    if found.Some? {
      CurrentHasKey(w, turns, found.value, key, work, pool, fqdn);
    }
  }

  lemma {:induction false} CurrentHasKey(w: World, turns: seq<Turn>, h: Host, key: string,
                                         work: seq<seq<Host>>, pool: set<Host>, fqdn: Resolver)
    requires Reached(w.s, work, pool, fqdn) && exists g :: g in pool && g.ip == key
    requires CurrentAtSomeLook(w, turns, h, key, fqdn)
    ensures h.ip == key
    decreases |turns|
  {
    ReachedList(w.s, work, pool, fqdn);
    GetByIp(pool, w.s.inventory, key, fqdn);
    if !(turns[0] == Look && Get(w.s.inventory, key, fqdn) == Some(h)) {
      if turns[0].Work? {
        MovedIsReached(w.s, turns[0].t, work, pool, fqdn);
      }
      CurrentHasKey(Take(w, turns[0], key, fqdn), turns[1..], h, key, work, pool, fqdn);
    }
  }

  // ---------------------------------------------------------------- both ways happen

  lemma {:induction false} RunOneMore(w: World, turns: seq<Turn>, turn: Turn, key: string, fqdn: Resolver)
    ensures Run(w, turns + [turn], key, fqdn) == Take(Run(w, turns, key, fqdn), turn, key, fqdn)
    decreases |turns|
  {
    if turns == [] {
      assert turns + [turn] == [turn] && [turn][1..] == [];
    } else {
      assert (turns + [turn])[1..] == turns[1..] + [turn];
      RunOneMore(Take(w, turns[0], key, fqdn), turns[1..], turn, key, fqdn);
    }
  }

  lemma WorkThrice(w: World, turns: seq<Turn>, t: nat, key: string, fqdn: Resolver) returns (longer: seq<Turn>)
    ensures var now, end := Run(w, turns, key, fqdn), Run(w, longer, key, fqdn);
            end == now.(s := Moved(Moved(Moved(now.s, t, fqdn), t, fqdn), t, fqdn))
  {
    longer := turns + [Work(t)];
    RunOneMore(w, turns, Work(t), key, fqdn);
    RunOneMore(w, longer, Work(t), key, fqdn);
    longer := longer + [Work(t)];
    RunOneMore(w, longer, Work(t), key, fqdn);
    longer := longer + [Work(t)];
  }

  /** A scan that comes to the list while `h` replaces `g`, which has its ip, finds neither. */
  lemma ScanMissesEvicted(s: State, g: Host, h: Host, fqdn: Resolver)
    returns (schedule: seq<nat>, turns: seq<Turn>)
    requires Init(s, [[g], [h]]) && g.ip == h.ip
    ensures var w := World(Execute(s, schedule, fqdn), FRESH); var end := Run(w, turns, g.ip, fqdn);
            && w.s.inventory == [g] && end.scan.done && end.scan.found == None
  {
    schedule := Five(s, 0, fqdn);
    StepsOfAdd(s, 0, g, fqdn);
    var mid := Execute(s, schedule, fqdn);
    assert mid.inventory == [g];
    StepsOfAdd(mid, 1, h, fqdn);
    var w := World(mid, FRESH);
    assert Run(w, [], g.ip, fqdn) == w;
    turns := WorkThrice(w, [], 1, g.ip, fqdn);
    assert Run(w, turns, g.ip, fqdn).s.inventory == [];
    RunOneMore(w, turns, Look, g.ip, fqdn);
    turns := turns + [Look];
  }

  /**
   A scan for `b` that has passed `a` when another thread replaces `a` by `c`, from beginning to end:
   it goes on behind `b` and finds nothing, although `b` was in the list all along.
   */
  lemma ScanSkipsBystander(s: State, a: Host, b: Host, c: Host, fqdn: Resolver)
    returns (schedule: seq<nat>, turns: seq<Turn>)
    requires Init(s, [[a], [b], [c]]) && a.ip == c.ip != b.ip && fqdn(a.ip) != b.ip && fqdn(b.ip) != a.ip
    ensures var w := World(Execute(s, schedule, fqdn), FRESH); var end := Run(w, turns, b.ip, fqdn);
            && w.s.inventory == [a, b] && end.s.inventory == [b, c] && end.s.lock == None
            && end.scan.done && end.scan.found == None
  {
    var first := Five(s, 0, fqdn);
    StepsOfAdd(s, 0, a, fqdn);
    var one := Execute(s, first, fqdn);
    assert one.inventory == [a];
    var second := Five(one, 1, fqdn);
    StepsOfAdd(one, 1, b, fqdn);
    ExecuteConcat(s, first, second, fqdn);
    schedule := first + second;
    var two := Execute(s, schedule, fqdn);
    assert two.inventory == [a, b] by { assert [a][1..] == []; }
    StepsOfAdd(two, 2, c, fqdn);
    var w := World(two, FRESH);
    turns := AroundAdd(w, b.ip, 2, fqdn);
    var end := Run(w, turns, b.ip, fqdn);
    assert end.s.inventory == [b, c];
  }

  /** One look, one whole `add`, two looks. */
  lemma AroundAdd(w: World, key: string, t: nat, fqdn: Resolver) returns (turns: seq<Turn>)
    ensures var looked := Take(w, Look, key, fqdn);
            var gap := Moved(Moved(Moved(w.s, t, fqdn), t, fqdn), t, fqdn);
            var added := looked.(s := Moved(Moved(gap, t, fqdn), t, fqdn));
            Run(w, turns, key, fqdn) == Take(Take(added, Look, key, fqdn), Look, key, fqdn)
  {
    assert Run(w, [], key, fqdn) == w;
    RunOneMore(w, [], Look, key, fqdn);
    turns := WorkThrice(w, [] + [Look], t, key, fqdn);
    RunOneMore(w, turns, Work(t), key, fqdn);
    turns := turns + [Work(t)];
    RunOneMore(w, turns, Work(t), key, fqdn);
    turns := turns + [Work(t)];
    RunOneMore(w, turns, Look, key, fqdn);
    turns := turns + [Look];
    RunOneMore(w, turns, Look, key, fqdn);
    turns := turns + [Look];
  }
}

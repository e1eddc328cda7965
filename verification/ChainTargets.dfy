/**
 * Combat::pickChainTargets of src/combat.cpp: a chain of targets, each the closest eligible creature seen from the one
 * before it, with a bounded number of steps back when a target has no successor.
 */
module ChainTargets {
  import opened Options

  const BACKTRACKING_ATTEMPTS: nat := 10

  type Id = nat

  type Small = n: nat | n < 0x100  // uint8_t

  datatype Position = Position(x: int, y: int, z: int)

  /** master: whether the master of a summon is a player, None without a master. */
  datatype Creature = Creature(id: Id, pos: Position, npc: bool, player: bool, monster: bool, secureMode: bool,
                               summon: bool, master: Option<bool>, inProtectionZone: bool)

  /**
   * What the search asks of the game: the spectators around a position, and whether a creature may be hit from another
   * (combat rules, picker callback and line of sight together).
   */
  datatype World = World(caster: Creature, view: Position -> seq<Creature>, valid: (Creature, Creature) -> bool,
                         distance: nat, backtracking: bool)
  {
    /** Spectators are within the chain distance, and an id belongs to one creature. */
    ghost predicate Regular() {
      && (forall p, s | s in view(p) :: Near(p, s.pos, distance))
      && (forall p, s | s in view(p) :: s.id == caster.id ==> s == caster)
      && (forall p, s, t | s in view(p) && t in view(p) :: s.id == t.id ==> s == t)
    }

    /** Never a target, wherever it is seen from. */
    predicate Barred(s: Creature) {
      s.npc || s == caster || s.inProtectionZone ||
      if caster.player then caster.secureMode && (s.player || (s.summon && s.master == Some(true)))
      else if caster.monster then (if s.summon then s.master != Some(true) else !s.player)
      else false
    }

    predicate Eligible(center: Creature, s: Creature, visited: set<Id>) {
      s.id !in visited && !Barred(s) && valid(center, s)
    }
  }

  function Gap(a: int, b: int): nat {
    if a < b then b - a else a - b
  }

  predicate Near(p: Position, q: Position, distance: nat) {
    Gap(p.x, q.x) <= distance && Gap(p.y, q.y) <= distance
  }

  function Dist(center: Creature, s: Creature): nat {
    Gap(center.pos.x, s.pos.x) + Gap(center.pos.y, s.pos.y)
  }

  /** A target picked from a center. */
  datatype Link = Link(center: Creature, target: Creature)

  // ---------------------------------------------------------------- one scan

  /** The spectator loop: the ids visited after it and the closest creature met, the first one of several. */
  function Scan(w: World, center: Creature, seen: seq<Creature>, visited: set<Id>, best: Option<Creature>)
    : (set<Id>, Option<Creature>)
  {
    if seen == [] then (visited, best)
    else if seen[0].id in visited then Scan(w, center, seen[1..], visited, best)
    else if w.Barred(seen[0]) || !w.valid(center, seen[0]) then
      Scan(w, center, seen[1..], visited + {seen[0].id}, best)
    else if best.None? || Dist(center, seen[0]) < Dist(center, best.value) then
      Scan(w, center, seen[1..], visited, Some(seen[0]))
    else Scan(w, center, seen[1..], visited, best)
  }

  /** b is spectator i, eligible, at least as close as every eligible one and closer than those before it. */
  predicate ClosestAt(w: World, center: Creature, seen: seq<Creature>, visited: set<Id>, b: Creature, i: nat) {
    && i < |seen| && seen[i] == b && w.Eligible(center, b, visited)
    && (forall j | 0 <= j < |seen| && w.Eligible(center, seen[j], visited) :: Dist(center, b) <= Dist(center, seen[j]))
    && (forall j | 0 <= j < i && w.Eligible(center, seen[j], visited) :: Dist(center, b) < Dist(center, seen[j]))
  }

  /** b is the first closest of the eligible creatures in seen. */
  ghost predicate FirstClosest(w: World, center: Creature, seen: seq<Creature>, visited: set<Id>, b: Creature) {
    exists i: nat :: ClosestAt(w, center, seen, visited, b, i)
  }

  /** The best of a scan so far, when the first k spectators have been looked at. */
  ghost predicate BestSoFar(w: World, center: Creature, seen: seq<Creature>, k: nat, start: set<Id>,
                            best: Option<Creature>)
    requires k <= |seen|
  {
    match best
    case None => forall j | 0 <= j < k :: !w.Eligible(center, seen[j], start)
    case Some(b) => FirstClosest(w, center, seen[..k], start, b)
  }

  /** The ids a scan has added: spectators that were not eligible. */
  ghost predicate OnlyRuledOut(w: World, center: Creature, seen: seq<Creature>, start: set<Id>, visited: set<Id>) {
    && start <= visited
    && forall s | s in seen && s.id in visited :: s.id in start || !w.Eligible(center, s, start)
  }

  lemma ExtendBest(w: World, center: Creature, seen: seq<Creature>, k: nat, start: set<Id>, best: Option<Creature>)
    requires k < |seen| && BestSoFar(w, center, seen, k, start, best)
    ensures !w.Eligible(center, seen[k], start) ==> BestSoFar(w, center, seen, k + 1, start, best)
    ensures w.Eligible(center, seen[k], start) ==>
              BestSoFar(w, center, seen, k + 1, start,
                        if best.None? || Dist(center, seen[k]) < Dist(center, best.value) then Some(seen[k]) else best)
  {
    assert seen[..k + 1] == seen[..k] + [seen[k]];
    if best.Some? {
      var i: nat :| ClosestAt(w, center, seen[..k], start, best.value, i);
      if w.Eligible(center, seen[k], start) && Dist(center, seen[k]) < Dist(center, best.value) {
        assert ClosestAt(w, center, seen[..k + 1], start, seen[k], k);
      } else {
        assert ClosestAt(w, center, seen[..k + 1], start, best.value, i);
      }
    } else if w.Eligible(center, seen[k], start) {
      assert ClosestAt(w, center, seen[..k + 1], start, seen[k], k);
    }
  }

  lemma {:induction false} ScanFinds(w: World, center: Creature, seen: seq<Creature>, k: nat, start: set<Id>,
                                     visited: set<Id>, best: Option<Creature>)
    requires k <= |seen|
    requires forall s, t | s in seen && t in seen :: s.id == t.id ==> s == t
    requires OnlyRuledOut(w, center, seen, start, visited) && BestSoFar(w, center, seen, k, start, best)
    ensures var (after, found) := Scan(w, center, seen[k..], visited, best);
            && OnlyRuledOut(w, center, seen, start, after)
            && BestSoFar(w, center, seen, |seen|, start, found)
            && visited <= after
            && (forall id | id in after :: id in visited || exists s :: s in seen && s.id == id)
    decreases |seen| - k
  {
    if k == |seen| {
    } else {
      var s := seen[k];
      assert seen[k..][0] == s && seen[k..][1..] == seen[k + 1..];
      ExtendBest(w, center, seen, k, start, best);
      if s.id in visited {
        ScanFinds(w, center, seen, k + 1, start, visited, best);
      } else if !w.Eligible(center, s, start) {
        ScanFinds(w, center, seen, k + 1, start, visited + {s.id}, best);
      } else if best.None? || Dist(center, s) < Dist(center, best.value) {
        ScanFinds(w, center, seen, k + 1, start, visited, Some(s));
      } else {
        ScanFinds(w, center, seen, k + 1, start, visited, best);
      }
    }
  }

  /**
   * A scan around a center finds nothing exactly when no spectator is eligible, and otherwise the first closest
   * eligible one, which it does not mark as visited.
   */
  lemma ScanIsClosest(w: World, center: Creature, visited: set<Id>)
    requires w.Regular()
    ensures var seen := w.view(center.pos);
            var (after, found) := Scan(w, center, seen, visited, None);
            && visited <= after
            && (found == None <==> forall s | s in seen :: !w.Eligible(center, s, visited))
            && (found.Some? ==>
                  && found.value in seen && found.value.id !in after
                  && FirstClosest(w, center, seen, visited, found.value))
  {
    var seen := w.view(center.pos);
    assert seen[0..] == seen && seen[..|seen|] == seen;
    ScanFinds(w, center, seen, 0, visited, visited, None);
  }

  // ---------------------------------------------------------------- the search

  /** The links picked from here on; targets is the stack. */
  function Run(w: World, maxTargets: nat, targets: seq<Creature>, visited: set<Id>, attempts: nat): seq<Link>
    decreases attempts, maxTargets - |targets|
  {
    if targets == [] || |targets| >= maxTargets || attempts == 0 then [] else
      var center := targets[|targets| - 1];
      var (after, found) := Scan(w, center, w.view(center.pos), visited, None);
      if found.Some? then
        [Link(center, found.value)]
        + Run(w, maxTargets, targets + [found.value], after + {found.value.id}, attempts)
      else if w.backtracking then Run(w, maxTargets, targets[..|targets| - 1], after, attempts - 1)
      else []
  }

  /** All links; without an initial target the caster is on the stack, and the uint8_t limit grows by one for it. */
  function Links(w: World, maxTargets: Small, initial: Option<Creature>): seq<Link> {
    if initial.Some? && initial.value != w.caster then
      [Link(w.caster, initial.value)] + Run(w, maxTargets, [initial.value], {initial.value.id}, BACKTRACKING_ATTEMPTS)
    else Run(w, (maxTargets + 1) % 0x100, [w.caster], {}, BACKTRACKING_ATTEMPTS)
  }

  /** Picked ids are new, distinct and not the caster's; every link keeps the rules of a pick. */
  ghost predicate Fresh(w: World, links: seq<Link>, visited: set<Id>) {
    && (forall k | 0 <= k < |links| :: links[k].target.id !in visited && links[k].target.id != w.caster.id)
    && (forall j, k | 0 <= j < k < |links| :: links[j].target.id != links[k].target.id)
  }

  predicate Allowed(w: World, l: Link) {
    && Near(l.center.pos, l.target.pos, w.distance)
    && l.target in w.view(l.center.pos) && !w.Barred(l.target) && w.valid(l.center, l.target)
  }

  /** The center of each link is one of the given creatures or the target of an earlier link. */
  ghost predicate Rooted(links: seq<Link>, roots: seq<Creature>) {
    forall k | 0 <= k < |links| ::
      links[k].center in roots || exists j | 0 <= j < k :: links[j].target == links[k].center
  }

  lemma {:induction false} RunIsFresh(w: World, maxTargets: nat, targets: seq<Creature>, visited: set<Id>,
                                      attempts: nat)
    requires w.Regular()
    ensures Fresh(w, Run(w, maxTargets, targets, visited, attempts), visited)
    ensures forall l | l in Run(w, maxTargets, targets, visited, attempts) :: Allowed(w, l)
    decreases attempts, maxTargets - |targets|
  {
    hide *;
    RunUnfolds(w, maxTargets, targets, visited, attempts);
    if targets == [] || |targets| >= maxTargets || attempts == 0 {
      NothingIsFresh(w, visited);
    } else {
      var center := targets[|targets| - 1];
      var (after, found) := Scan(w, center, w.view(center.pos), visited, None);
      ScanAllows(w, center, visited);
      if found.Some? {
        var rest := Run(w, maxTargets, targets + [found.value], after + {found.value.id}, attempts);
        RunIsFresh(w, maxTargets, targets + [found.value], after + {found.value.id}, attempts);
        FreshCons(w, Link(center, found.value), rest, visited, after + {found.value.id});
      } else if w.backtracking {
        RunIsFresh(w, maxTargets, targets[..|targets| - 1], after, attempts - 1);
        FreshOfFewer(w, Run(w, maxTargets, targets[..|targets| - 1], after, attempts - 1), visited, after);
      } else {
        NothingIsFresh(w, visited);
      }
    }
  }

  lemma RunUnfolds(w: World, maxTargets: nat, targets: seq<Creature>, visited: set<Id>, attempts: nat)
    ensures targets == [] || |targets| >= maxTargets || attempts == 0 ==>
              Run(w, maxTargets, targets, visited, attempts) == []
    ensures targets != [] && |targets| < maxTargets && attempts > 0 ==>
              var center := targets[|targets| - 1];
              var (after, found) := Scan(w, center, w.view(center.pos), visited, None);
              Run(w, maxTargets, targets, visited, attempts) ==
              if found.Some? then
                [Link(center, found.value)]
                + Run(w, maxTargets, targets + [found.value], after + {found.value.id}, attempts)
              else if w.backtracking then Run(w, maxTargets, targets[..|targets| - 1], after, attempts - 1)
              else []
  {
  }

  lemma NothingIsFresh(w: World, visited: set<Id>)
    ensures Fresh(w, [], visited)
  {
  }

  lemma FreshOfFewer(w: World, links: seq<Link>, visited: set<Id>, after: set<Id>)
    requires Fresh(w, links, after) && visited <= after
    ensures Fresh(w, links, visited)
  {
  }

  /** What a scan finds may be picked. */
  lemma ScanAllows(w: World, center: Creature, visited: set<Id>)
    requires w.Regular()
    ensures var (after, found) := Scan(w, center, w.view(center.pos), visited, None);
            && visited <= after
            && (found.Some? ==>
                  && found.value.id !in visited && found.value.id != w.caster.id
                  && Allowed(w, Link(center, found.value)))
  {
    ScanIsClosest(w, center, visited);
  }

  lemma FreshCons(w: World, l: Link, rest: seq<Link>, visited: set<Id>, after: set<Id>)
    requires Fresh(w, rest, after) && visited <= after && l.target.id in after
    requires l.target.id !in visited && l.target.id != w.caster.id
    ensures Fresh(w, [l] + rest, visited)
  {
    var links := [l] + rest;
    assert forall k | 0 < k < |links| :: links[k] == rest[k - 1];
  }

  lemma {:induction false} RunIsRooted(w: World, maxTargets: nat, targets: seq<Creature>, visited: set<Id>,
                                       attempts: nat)
    ensures Rooted(Run(w, maxTargets, targets, visited, attempts), targets)
    decreases attempts, maxTargets - |targets|
  {
    if targets == [] || |targets| >= maxTargets || attempts == 0 {
    } else {
      var center := targets[|targets| - 1];
      var (after, found) := Scan(w, center, w.view(center.pos), visited, None);
      if found.Some? {
        RunIsRooted(w, maxTargets, targets + [found.value], after + {found.value.id}, attempts);
        RootedCons(Link(center, found.value),
                   Run(w, maxTargets, targets + [found.value], after + {found.value.id}, attempts), targets);
      } else if w.backtracking {
        RunIsRooted(w, maxTargets, targets[..|targets| - 1], after, attempts - 1);
      }
    }
  }

  lemma RootedCons(l: Link, rest: seq<Link>, roots: seq<Creature>)
    requires l.center in roots && Rooted(rest, roots + [l.target])
    ensures Rooted([l] + rest, roots)
  {
    var links := [l] + rest;
    forall k | 0 <= k < |links|
      ensures links[k].center in roots || exists j | 0 <= j < k :: links[j].target == links[k].center
    {
      if k > 0 {
        assert links[k] == rest[k - 1];
        if links[k].center !in roots {
          if links[k].center == l.target {
            assert links[0].target == links[k].center;
          } else {
            var j :| 0 <= j < k - 1 && rest[j].target == rest[k - 1].center;
            assert links[j + 1].target == links[k].center;
          }
        }
      }
    }
  }

  /** Each step back makes room for one more pick, but the tenth ends the search. */
  lemma {:induction false} RunIsBounded(w: World, maxTargets: nat, targets: seq<Creature>, visited: set<Id>,
                                        attempts: nat)
    requires |targets| <= maxTargets && attempts > 0
    ensures |targets| + |Run(w, maxTargets, targets, visited, attempts)| <=
            maxTargets + if w.backtracking then attempts - 1 else 0
    decreases attempts, maxTargets - |targets|
  {
    if targets == [] || |targets| >= maxTargets {
    } else {
      var center := targets[|targets| - 1];
      var (after, found) := Scan(w, center, w.view(center.pos), visited, None);
      if found.Some? {
        RunIsBounded(w, maxTargets, targets + [found.value], after + {found.value.id}, attempts);
      } else if w.backtracking && attempts > 1 {
        RunIsBounded(w, maxTargets, targets[..|targets| - 1], after, attempts - 1);
      }
    }
  }

  /** The targets are distinct and never the caster; a picked link is allowed and starts at the caster or a target. */
  lemma LinksAreSound(w: World, maxTargets: Small, initial: Option<Creature>)
    requires w.Regular() && (initial.Some? && initial.value != w.caster ==> initial.value.id != w.caster.id)
    ensures var links := Links(w, maxTargets, initial);
            && Fresh(w, links, {})
            && Rooted(links, [w.caster])
            && forall k | 0 <= k < |links| :: Allowed(w, links[k]) || (k == 0 && initial == Some(links[0].target))
  {
    if initial.Some? && initial.value != w.caster {
      var first, visited := initial.value, {initial.value.id};
      var rest := Run(w, maxTargets, [first], visited, BACKTRACKING_ATTEMPTS);
      RunIsFresh(w, maxTargets, [first], visited, BACKTRACKING_ATTEMPTS);
      FreshCons(w, Link(w.caster, first), rest, {}, visited);
      RunIsRooted(w, maxTargets, [first], visited, BACKTRACKING_ATTEMPTS);
      MoreRoots(rest, [first], [w.caster] + [first]);
      RootedCons(Link(w.caster, first), rest, [w.caster]);
    } else {
      RunIsFresh(w, (maxTargets + 1) % 0x100, [w.caster], {}, BACKTRACKING_ATTEMPTS);
      RunIsRooted(w, (maxTargets + 1) % 0x100, [w.caster], {}, BACKTRACKING_ATTEMPTS);
    }
  }

  lemma MoreRoots(links: seq<Link>, roots: seq<Creature>, more: seq<Creature>)
    requires Rooted(links, roots) && forall r | r in roots :: r in more
    ensures Rooted(links, more)
  {
  }

  /** At most nine targets more than asked for, none more without backtracking; an initial target always counts. */
  lemma LinksAreBounded(w: World, maxTargets: Small, initial: Option<Creature>)
    ensures var n := |Links(w, maxTargets, initial)|;
            && n <= maxTargets + BACKTRACKING_ATTEMPTS - 1
            && (!w.backtracking ==> n <= maxTargets || (n == 1 && initial.Some?))
  {
    if initial.Some? && initial.value != w.caster {
      if maxTargets > 0 {
        RunIsBounded(w, maxTargets, [initial.value], {initial.value.id}, BACKTRACKING_ATTEMPTS);
      }
    } else if maxTargets < 0xFF {
      RunIsBounded(w, maxTargets + 1, [w.caster], {}, BACKTRACKING_ATTEMPTS);
    }
  }

  /** Without an initial target nothing is picked exactly for a limit of 0 or 255, or when no one is eligible. */
  lemma NothingPicked(w: World, maxTargets: Small)
    requires w.Regular()
    ensures Links(w, maxTargets, None) == [] <==>
            (maxTargets == 0 || maxTargets == 255 ||
             forall s | s in w.view(w.caster.pos) :: !w.Eligible(w.caster, s, {}))
  {
    ScanIsClosest(w, w.caster, {});
    var limit := (maxTargets + 1) % 0x100;
    if 0 < maxTargets < 255 {
      assert limit == maxTargets + 1 > 1;
      var (after, found) := Scan(w, w.caster, w.view(w.caster.pos), {}, None);
      if found == None {
        assert [w.caster][..0] == [];
        assert Run(w, limit, [], after, BACKTRACKING_ATTEMPTS - 1) == [];
      }
    }
  }

  // ---------------------------------------------------------------- the search, round by round

  /** One look around from the last target on the stack, and whom it found. */
  datatype Round = Round(center: Creature, found: Option<Creature>)

  /** The targets from which the search may still go on: every find is put on top, every dead end taken off. */
  function Stack(start: Creature, rounds: seq<Round>): seq<Creature> {
    if rounds == [] then [start] else
      var before := Stack(start, rounds[..|rounds| - 1]);
      match rounds[|rounds| - 1].found
      case Some(target) => before + [target]
      case None => if before == [] then [] else before[..|before| - 1]
  }

  function DeadEnds(rounds: seq<Round>): nat {
    if rounds == [] then 0
    else DeadEnds(rounds[..|rounds| - 1]) + if rounds[|rounds| - 1].found.None? then 1 else 0
  }

  /** The spectators of a center who may never be targets, or not from there. */
  function RuledOut(w: World, center: Creature, seen: seq<Creature>): set<Id> {
    set s | s in seen && (w.Barred(s) || !w.valid(center, s)) :: s.id
  }

  /** Who is out of play: those ruled out from some center so far, and those found. */
  function Gone(w: World, first: set<Id>, rounds: seq<Round>): set<Id> {
    if rounds == [] then first else
      var last := rounds[|rounds| - 1];
      Gone(w, first, rounds[..|rounds| - 1]) + RuledOut(w, last.center, w.view(last.center.pos))
      + if last.found.Some? then {last.found.value.id} else {}
  }

  /** There is a target to go on from, the limit is not reached, and there may be another dead end. */
  predicate Searching(w: World, limit: nat, start: Creature, rounds: seq<Round>) {
    && 0 < |Stack(start, rounds)| < limit
    && DeadEnds(rounds) < if w.backtracking then BACKTRACKING_ATTEMPTS else 1
  }

  predicate NoneEligible(w: World, center: Creature, gone: set<Id>) {
    forall s | s in w.view(center.pos) :: !w.Eligible(center, s, gone)
  }

  /** The round looks around from the top of the stack and finds the first closest creature in play, if there is one. */
  ghost predicate RoundOk(w: World, limit: nat, start: Creature, first: set<Id>, before: seq<Round>, r: Round) {
    && Searching(w, limit, start, before) && r.center == Stack(start, before)[|Stack(start, before)| - 1]
    && match r.found
       case None => NoneEligible(w, r.center, Gone(w, first, before))
       case Some(b) => FirstClosest(w, r.center, w.view(r.center.pos), Gone(w, first, before), b)
  }

  ghost predicate RoundsOk(w: World, limit: nat, start: Creature, first: set<Id>, rounds: seq<Round>) {
    forall k | 0 <= k < |rounds| :: RoundOk(w, limit, start, first, rounds[..k], rounds[k])
  }

  /** The rounds of a whole search: it goes on as long as it can. */
  ghost predicate Search(w: World, limit: nat, start: Creature, first: set<Id>, rounds: seq<Round>) {
    RoundsOk(w, limit, start, first, rounds) && !Searching(w, limit, start, rounds)
  }

  function Picks(rounds: seq<Round>): seq<Link> {
    if rounds == [] then [] else
      var last := rounds[|rounds| - 1];
      Picks(rounds[..|rounds| - 1]) + if last.found.Some? then [Link(last.center, last.found.value)] else []
  }

  lemma {:induction false} ScanRulesOut(w: World, center: Creature, seen: seq<Creature>, visited: set<Id>,
                                        best: Option<Creature>)
    ensures Scan(w, center, seen, visited, best).0 == visited + RuledOut(w, center, seen)
  {
    if seen == [] {
    } else {
      assert seen == [seen[0]] + seen[1..];
      var out := w.Barred(seen[0]) || !w.valid(center, seen[0]);
      assert RuledOut(w, center, seen) == RuledOut(w, center, seen[1..]) + if out then {seen[0].id} else {};
      if seen[0].id in visited {
        ScanRulesOut(w, center, seen[1..], visited, best);
      } else if out {
        ScanRulesOut(w, center, seen[1..], visited + {seen[0].id}, best);
      } else if best.None? || Dist(center, seen[0]) < Dist(center, best.value) {
        ScanRulesOut(w, center, seen[1..], visited, Some(seen[0]));
      } else {
        ScanRulesOut(w, center, seen[1..], visited, best);
      }
    }
  }

  /** One more round: what it adds to stack, dead ends, picks and those out of play. */
  lemma OneMore(w: World, limit: nat, start: Creature, first: set<Id>, rounds: seq<Round>, r: Round)
    requires Stack(start, rounds) != []
    ensures var more, st := rounds + [r], Stack(start, rounds);
            && Stack(start, more) == (if r.found.Some? then st + [r.found.value] else st[..|st| - 1])
            && DeadEnds(more) == DeadEnds(rounds) + (if r.found.None? then 1 else 0)
            && Picks(more) == Picks(rounds) + (if r.found.Some? then [Link(r.center, r.found.value)] else [])
            && Gone(w, first, more) == Gone(w, first, rounds) + RuledOut(w, r.center, w.view(r.center.pos))
                                       + (if r.found.Some? then {r.found.value.id} else {})
            && (RoundsOk(w, limit, start, first, rounds) && RoundOk(w, limit, start, first, rounds, r) ==>
                  RoundsOk(w, limit, start, first, more))
  {
    var more := rounds + [r];
    assert more[..|more| - 1] == rounds && more[|more| - 1] == r;
    forall k | 0 <= k < |rounds|
      ensures more[..k] == rounds[..k] && more[k] == rounds[k]
    {
    }
  }

  lemma {:induction false} RunIsSearch(w: World, limit: nat, start: Creature, first: set<Id>, done: seq<Round>,
                                       attempts: nat) returns (rounds: seq<Round>)
    requires w.Regular() && RoundsOk(w, limit, start, first, done)
    requires if w.backtracking then attempts == BACKTRACKING_ATTEMPTS - DeadEnds(done)
             else attempts == BACKTRACKING_ATTEMPTS && DeadEnds(done) == 0
    ensures Search(w, limit, start, first, rounds)
    ensures Picks(rounds) == Picks(done) + Run(w, limit, Stack(start, done), Gone(w, first, done), attempts)
    decreases attempts, limit - |Stack(start, done)|
  {
    hide *;
    var targets, visited := Stack(start, done), Gone(w, first, done);
    RunUnfolds(w, limit, targets, visited, attempts);
    SearchIs(w, limit, start, first, done);
    if targets == [] || |targets| >= limit || attempts == 0 {
      rounds := done;
      assert Picks(done) + [] == Picks(done);
    } else {
      var center := targets[|targets| - 1];
      var (after, found) := Scan(w, center, w.view(center.pos), visited, None);
      var r := Round(center, found);
      ScanRulesOut(w, center, w.view(center.pos), visited, None);
      ScanIsRound(w, limit, start, first, done, r, visited, after);
      OneMore(w, limit, start, first, done, r);
      if found.Some? {
        rounds := RunIsSearch(w, limit, start, first, done + [r], attempts);
        Grouped(Picks(done), [Link(center, found.value)],
                Run(w, limit, targets + [found.value], after + {found.value.id}, attempts));
      } else if w.backtracking {
        assert after + {} == after && Picks(done) + [] == Picks(done);
        rounds := RunIsSearch(w, limit, start, first, done + [r], attempts - 1);
      } else {
        rounds := done + [r];
        SearchIs(w, limit, start, first, rounds);
      }
    }
  }

  lemma Grouped(a: seq<Link>, b: seq<Link>, c: seq<Link>)
    ensures a + b + c == a + (b + c)
  {
  }

  lemma SearchIs(w: World, limit: nat, start: Creature, first: set<Id>, rounds: seq<Round>)
    ensures BACKTRACKING_ATTEMPTS == 10
    ensures Searching(w, limit, start, rounds) <==>
              0 < |Stack(start, rounds)| < limit && DeadEnds(rounds) < if w.backtracking then 10 else 1
    ensures Search(w, limit, start, first, rounds) <==>
              RoundsOk(w, limit, start, first, rounds) && !Searching(w, limit, start, rounds)
  {
  }

  lemma ScanIsRound(w: World, limit: nat, start: Creature, first: set<Id>, before: seq<Round>, r: Round,
                    visited: set<Id>, after: set<Id>)
    requires w.Regular() && Searching(w, limit, start, before)
    requires r.center == Stack(start, before)[|Stack(start, before)| - 1] && visited == Gone(w, first, before)
    requires Scan(w, r.center, w.view(r.center.pos), visited, None) == (after, r.found)
    ensures RoundOk(w, limit, start, first, before, r)
  {
    ScanIsClosest(w, r.center, visited);
  }

  /** What the search starts with: the limit of the stack, its first creature, who is out of play, the first link. */
  datatype Opening = Opening(limit: nat, start: Creature, first: set<Id>, links: seq<Link>)

  function OpeningOf(w: World, maxTargets: Small, initial: Option<Creature>): Opening {
    if initial.Some? && initial.value != w.caster then
      Opening(maxTargets, initial.value, {initial.value.id}, [Link(w.caster, initial.value)])
    else Opening((maxTargets + 1) % 0x100, w.caster, {}, [])
  }

  /** An initial target is linked to the caster first; then the links are the finds of the one whole search there is. */
  lemma LinksAreTheSearch(w: World, maxTargets: Small, initial: Option<Creature>, rounds: seq<Round>)
    requires w.Regular()
    ensures var o := OpeningOf(w, maxTargets, initial);
            && (exists r :: Search(w, o.limit, o.start, o.first, r))
            && (Search(w, o.limit, o.start, o.first, rounds) ==>
                  Links(w, maxTargets, initial) == o.links + Picks(rounds))
    ensures initial.Some? && initial.value != w.caster ==>
              Links(w, maxTargets, initial) != [] && Links(w, maxTargets, initial)[0] == Link(w.caster, initial.value)
  {
    hide *;
    var o := OpeningOf(w, maxTargets, initial);
    LinksUnfold(w, maxTargets, initial);
    NoRounds(w, o.limit, o.start, o.first);
    var found := RunIsSearch(w, o.limit, o.start, o.first, [], BACKTRACKING_ATTEMPTS);
    assert [] + Picks(found) == Picks(found);
    if Search(w, o.limit, o.start, o.first, rounds) {
      SearchIsUnique(w, o.limit, o.start, o.first, rounds, found);
    }
  }

  lemma LinksUnfold(w: World, maxTargets: Small, initial: Option<Creature>)
    ensures var o := OpeningOf(w, maxTargets, initial);
            Links(w, maxTargets, initial) == o.links + Run(w, o.limit, [o.start], o.first, BACKTRACKING_ATTEMPTS)
    ensures initial.Some? && initial.value != w.caster ==>
              Links(w, maxTargets, initial) != [] && Links(w, maxTargets, initial)[0] == Link(w.caster, initial.value)
  {
    var o := OpeningOf(w, maxTargets, initial);
    var run := Run(w, o.limit, [o.start], o.first, BACKTRACKING_ATTEMPTS);
    assert [] + run == run;
  }

  lemma NoRounds(w: World, limit: nat, start: Creature, first: set<Id>)
    ensures Stack(start, []) == [start] && Gone(w, first, []) == first && Picks([]) == [] && DeadEnds([]) == 0
    ensures RoundsOk(w, limit, start, first, [])
    ensures BACKTRACKING_ATTEMPTS == 10
  {
  }

  lemma FirstClosestIsUnique(w: World, center: Creature, seen: seq<Creature>, visited: set<Id>, a: Creature,
                             b: Creature)
    requires FirstClosest(w, center, seen, visited, a) && FirstClosest(w, center, seen, visited, b)
    ensures a == b
  {
    var i: nat :| ClosestAt(w, center, seen, visited, a, i);
    var j: nat :| ClosestAt(w, center, seen, visited, b, j);
    assert seen[i] == a && seen[j] == b;
  }

  lemma SameRound(w: World, limit: nat, start: Creature, first: set<Id>, before: seq<Round>, r: Round, t: Round)
    requires RoundOk(w, limit, start, first, before, r) && RoundOk(w, limit, start, first, before, t)
    ensures r == t
  {
    var seen, gone := w.view(r.center.pos), Gone(w, first, before);
    if r.found.Some? && t.found.Some? {
      FirstClosestIsUnique(w, r.center, seen, gone, r.found.value, t.found.value);
    } else if r.found.Some? {
      FoundIsEligible(w, r.center, gone, r.found.value);
    } else if t.found.Some? {
      FoundIsEligible(w, r.center, gone, t.found.value);
    }
  }

  lemma FoundIsEligible(w: World, center: Creature, gone: set<Id>, b: Creature)
    requires FirstClosest(w, center, w.view(center.pos), gone, b)
    ensures !NoneEligible(w, center, gone)
  {
    var i: nat :| ClosestAt(w, center, w.view(center.pos), gone, b, i);
    assert b in w.view(center.pos);
  }

  lemma RoundAt(w: World, limit: nat, start: Creature, first: set<Id>, rounds: seq<Round>, k: nat)
    requires RoundsOk(w, limit, start, first, rounds) && k < |rounds|
    ensures RoundOk(w, limit, start, first, rounds[..k], rounds[k]) && Searching(w, limit, start, rounds[..k])
  {
  }

  lemma SearchIsUnique(w: World, limit: nat, start: Creature, first: set<Id>, a: seq<Round>, b: seq<Round>)
    requires Search(w, limit, start, first, a) && Search(w, limit, start, first, b)
    ensures a == b
  {
    hide *;
    SearchIs(w, limit, start, first, a);
    SearchIs(w, limit, start, first, b);
    SameRounds(w, limit, start, first, a, b, if |a| < |b| then |a| else |b|);
    assert a[..|a|] == a && b[..|b|] == b;
    if |a| < |b| {
      RoundAt(w, limit, start, first, b, |a|);
    } else if |b| < |a| {
      RoundAt(w, limit, start, first, a, |b|);
    }
  }

  lemma {:induction false} SameRounds(w: World, limit: nat, start: Creature, first: set<Id>, a: seq<Round>,
                                      b: seq<Round>, k: nat)
    requires RoundsOk(w, limit, start, first, a) && RoundsOk(w, limit, start, first, b) && k <= |a| && k <= |b|
    ensures a[..k] == b[..k]
  {
    hide *;
    if k > 0 {
      SameRounds(w, limit, start, first, a, b, k - 1);
      RoundAt(w, limit, start, first, a, k - 1);
      RoundAt(w, limit, start, first, b, k - 1);
      SameRound(w, limit, start, first, a[..k - 1], a[k - 1], b[k - 1]);
      assert a[..k] == a[..k - 1] + [a[k - 1]] && b[..k] == b[..k - 1] + [b[k - 1]];
    }
  }

  /** c is where the search starts or has been found. */
  predicate Reached(start: Creature, rounds: seq<Round>, c: Creature) {
    c == start || exists k :: 0 <= k < |rounds| && rounds[k].found == Some(c)
  }

  lemma {:induction false} LeftIsExhausted(w: World, limit: nat, start: Creature, first: set<Id>, rounds: seq<Round>)
    requires RoundsOk(w, limit, start, first, rounds)
    ensures forall c | Reached(start, rounds, c) ::
              c in Stack(start, rounds) || NoneEligible(w, c, Gone(w, first, rounds))
    ensures DeadEnds(rounds) <= if w.backtracking then BACKTRACKING_ATTEMPTS else 1
    decreases |rounds|
  {
    if rounds != [] {
      var before, r := rounds[..|rounds| - 1], rounds[|rounds| - 1];
      RoundsBefore(w, limit, start, first, rounds);
      LeftIsExhausted(w, limit, start, first, before);
      forall c | Reached(start, rounds, c)
        ensures c in Stack(start, rounds) || NoneEligible(w, c, Gone(w, first, rounds))
      {
        ReachedBefore(start, rounds, c);
        var st := Stack(start, before);
        assert st == st[..|st| - 1] + [r.center];
        assert Gone(w, first, before) <= Gone(w, first, rounds);
      }
    }
  }

  lemma ReachedBefore(start: Creature, rounds: seq<Round>, c: Creature)
    requires rounds != []
    ensures Reached(start, rounds, c) <==>
            Reached(start, rounds[..|rounds| - 1], c) || rounds[|rounds| - 1].found == Some(c)
  {
    assert forall k | 0 <= k < |rounds| - 1 :: rounds[..|rounds| - 1][k] == rounds[k];
  }

  lemma RoundsBefore(w: World, limit: nat, start: Creature, first: set<Id>, rounds: seq<Round>)
    requires RoundsOk(w, limit, start, first, rounds) && rounds != []
    ensures RoundsOk(w, limit, start, first, rounds[..|rounds| - 1])
    ensures RoundOk(w, limit, start, first, rounds[..|rounds| - 1], rounds[|rounds| - 1])
  {
    var before := rounds[..|rounds| - 1];
    forall k | 0 <= k < |before|
      ensures RoundOk(w, limit, start, first, before[..k], before[k])
    {
      assert before[..k] == rounds[..k] && before[k] == rounds[k];
    }
  }

  /**
   * A search misses nothing. It ends when the limit is reached, after ten dead ends, or when nobody is left to go on
   * from; without backtracking at the first dead end. All targets that are not left to go on from, the last dead end
   * among them, have no spectator in play any more.
   */
  lemma SearchIsExhaustive(w: World, limit: nat, start: Creature, first: set<Id>, rounds: seq<Round>)
    requires Search(w, limit, start, first, rounds)
    ensures || |Stack(start, rounds)| >= limit || Stack(start, rounds) == []
            || DeadEnds(rounds) == if w.backtracking then BACKTRACKING_ATTEMPTS else 1
    ensures forall c | Reached(start, rounds, c) ::
              c in Stack(start, rounds) || NoneEligible(w, c, Gone(w, first, rounds))
    ensures !w.backtracking && |Stack(start, rounds)| < limit && limit > 1 ==>
              rounds != [] && rounds[|rounds| - 1].found.None?
              && NoneEligible(w, rounds[|rounds| - 1].center, Gone(w, first, rounds))
  {
    LeftIsExhausted(w, limit, start, first, rounds);
    if rounds != [] {
      var before, r := rounds[..|rounds| - 1], rounds[|rounds| - 1];
      RoundsBefore(w, limit, start, first, rounds);
      LeftIsExhausted(w, limit, start, first, before);
      assert Gone(w, first, before) <= Gone(w, first, rounds);
    }
  }

  // ---------------------------------------------------------------- the result map

  type ResultMap = seq<(Position, seq<Id>)>

  function Added(r: ResultMap, pos: Position, id: Id): ResultMap {
    if r == [] then [(pos, [id])]
    else if r[0].0 == pos then [(pos, r[0].1 + [id])] + r[1..]
    else [r[0]] + Added(r[1..], pos, id)
  }

  function AddedAll(r: ResultMap, links: seq<Link>): ResultMap
    decreases |links|
  {
    if links == [] then r else AddedAll(Added(r, links[0].center.pos, links[0].target.id), links[1..])
  }

  /** The targets picked from a position, in order. */
  function IdsFrom(links: seq<Link>, pos: Position): seq<Id> {
    if links == [] then []
    else (if links[0].center.pos == pos then [links[0].target.id] else []) + IdsFrom(links[1..], pos)
  }

  function IdsAt(r: ResultMap, pos: Position): seq<Id>
    decreases |r|
  {
    if r == [] then [] else if r[0].0 == pos then r[0].1 else IdsAt(r[1..], pos)
  }

  predicate Positions(r: ResultMap) {
    && (forall i, j | 0 <= i < j < |r| :: r[i].0 != r[j].0)
    && (forall i | 0 <= i < |r| :: r[i].1 != [])
  }

  lemma {:induction false} AddedKeeps(r: ResultMap, pos: Position, id: Id)
    requires Positions(r)
    ensures Positions(Added(r, pos, id))
    ensures forall e | e in Added(r, pos, id) :: e.0 == pos || e in r
    ensures forall p :: IdsAt(Added(r, pos, id), p) == IdsAt(r, p) + if p == pos then [id] else []
    decreases |r|
  {
    if r == [] {
    } else if r[0].0 == pos {
      var s := Added(r, pos, id);
      assert forall i | 0 < i < |s| :: s[i] == r[i];
      assert s[1..] == r[1..];
    } else {
      AddedKeeps(r[1..], pos, id);
      var rest := Added(r[1..], pos, id);
      var s := [r[0]] + rest;
      forall j | 0 < j < |s|
        ensures s[0].0 != s[j].0 && s[j].1 != []
      {
        assert s[j] == rest[j - 1] && rest[j - 1] in rest;
        if rest[j - 1] in r[1..] {
          var i :| 0 <= i < |r[1..]| && r[1..][i] == rest[j - 1];
          assert r[i + 1] == rest[j - 1];
        }
      }
      assert s[1..] == rest;
      assert forall i, j | 0 < i < j < |s| :: s[i] == rest[i - 1] && s[j] == rest[j - 1];
    }
  }

  /** The result has one entry for each position something was picked from, with the targets picked there in order. */
  lemma {:induction false} ResultGroupsLinks(r: ResultMap, links: seq<Link>)
    requires Positions(r)
    ensures Positions(AddedAll(r, links))
    ensures forall p :: IdsAt(AddedAll(r, links), p) == IdsAt(r, p) + IdsFrom(links, p)
    decreases |links|
  {
    hide *;
    if links == [] {
      NothingAdded(r);
    } else {
      AddedKeeps(r, links[0].center.pos, links[0].target.id);
      var s := Added(r, links[0].center.pos, links[0].target.id);
      ResultGroupsLinks(s, links[1..]);
      forall p
        ensures IdsAt(AddedAll(r, links), p) == IdsAt(r, p) + IdsFrom(links, p)
      {
        FirstAdded(r, links, p);
      }
      FirstAdded(r, links, links[0].center.pos);
    }
  }

  lemma NothingAdded(r: ResultMap)
    ensures AddedAll(r, []) == r && forall p :: IdsAt(r, p) + IdsFrom([], p) == IdsAt(r, p)
  {
  }

  lemma FirstAdded(r: ResultMap, links: seq<Link>, p: Position)
    requires links != []
    ensures AddedAll(r, links) == AddedAll(Added(r, links[0].center.pos, links[0].target.id), links[1..])
    ensures var first := if p == links[0].center.pos then [links[0].target.id] else [];
            IdsAt(r, p) + IdsFrom(links, p) == IdsAt(r, p) + first + IdsFrom(links[1..], p)
  {
  }

  /** All ids in the result, position by position. */
  function AllIds(r: ResultMap): seq<Id> {
    if r == [] then [] else r[0].1 + AllIds(r[1..])
  }

  function Targets(links: seq<Link>): (ids: seq<Id>)
    ensures |ids| == |links| && forall k | 0 <= k < |ids| :: ids[k] == links[k].target.id
  {
    if links == [] then [] else [links[0].target.id] + Targets(links[1..])
  }

  ghost predicate Distinct(ids: seq<Id>) {
    forall j, k | 0 <= j < k < |ids| :: ids[j] != ids[k]
  }

  lemma {:induction false} AddedIds(r: ResultMap, pos: Position, id: Id)
    ensures multiset(AllIds(Added(r, pos, id))) == multiset(AllIds(r)) + multiset{id}
    decreases |r|
  {
    if r == [] {
      assert [(pos, [id])][1..] == [];
    } else if r[0].0 == pos {
      var s := [(pos, r[0].1 + [id])] + r[1..];
      assert s[1..] == r[1..] && AllIds(s) == r[0].1 + [id] + AllIds(r[1..]);
    } else {
      AddedIds(r[1..], pos, id);
      var s := [r[0]] + Added(r[1..], pos, id);
      assert s[1..] == Added(r[1..], pos, id);
    }
  }

  lemma {:induction false} AllAddedIds(r: ResultMap, links: seq<Link>)
    ensures multiset(AllIds(AddedAll(r, links))) == multiset(AllIds(r)) + multiset(Targets(links))
    decreases |links|
  {
    if links == [] {
    } else {
      AddedIds(r, links[0].center.pos, links[0].target.id);
      AllAddedIds(Added(r, links[0].center.pos, links[0].target.id), links[1..]);
    }
  }

  lemma {:induction false} DistinctOnce(ids: seq<Id>)
    requires Distinct(ids)
    ensures forall id :: multiset(ids)[id] <= 1
  {
    if ids != [] {
      assert ids == [ids[0]] + ids[1..];
      DistinctOnce(ids[1..]);
      assert ids[0] !in ids[1..];
    }
  }

  lemma OnceDistinct(ids: seq<Id>)
    requires forall id :: multiset(ids)[id] <= 1
    ensures Distinct(ids)
  {
    forall j, k | 0 <= j < k < |ids|
      ensures ids[j] != ids[k]
    {
      assert ids == ids[..j] + [ids[j]] + ids[j + 1..];
      assert ids[k] == ids[j + 1..][k - j - 1] && ids[k] in multiset(ids[j + 1..]);
      assert multiset(ids) == multiset(ids[..j]) + multiset{ids[j]} + multiset(ids[j + 1..]);
      assert multiset(ids)[ids[j]] == multiset(ids[..j])[ids[j]] + 1 + multiset(ids[j + 1..])[ids[j]];
    }
  }

  /** The result has every target once and never the caster. */
  lemma ResultIsSound(w: World, maxTargets: Small, initial: Option<Creature>)
    requires w.Regular() && (initial.Some? && initial.value != w.caster ==> initial.value.id != w.caster.id)
    ensures var ids := AllIds(AddedAll([], Links(w, maxTargets, initial)));
            Distinct(ids) && w.caster.id !in ids
  {
    var links := Links(w, maxTargets, initial);
    var ids := AllIds(AddedAll([], links));
    LinksAreSound(w, maxTargets, initial);
    AllAddedIds([], links);
    DistinctOnce(Targets(links));
    OnceDistinct(ids);
    assert w.caster.id !in Targets(links);
    assert w.caster.id in ids <==> w.caster.id in multiset(ids);
  }

  /** The result has at most nine targets more than asked for, none more without backtracking. */
  lemma ResultIsBounded(w: World, maxTargets: Small, initial: Option<Creature>)
    ensures var n := |AllIds(AddedAll([], Links(w, maxTargets, initial)))|;
            && n == |Links(w, maxTargets, initial)| <= maxTargets + BACKTRACKING_ATTEMPTS - 1
            && (!w.backtracking ==> n <= maxTargets || (n == 1 && initial.Some?))
  {
    var links := Links(w, maxTargets, initial);
    AllAddedIds([], links);
    LinksAreBounded(w, maxTargets, initial);
    assert |multiset(AllIds(AddedAll([], links)))| == |multiset(Targets(links))|;
  }

  // ---------------------------------------------------------------- the loops

  method AddLink(before: ResultMap, pos: Position, id: Id) returns (r: ResultMap)
    ensures r == Added(before, pos, id)
  {
    hide *;
    r := before;
    assert before[..0] == [] && before[0..] == before;
    for i := 0 to |before|
      invariant r == before
      invariant Added(before, pos, id) == before[..i] + Added(before[i..], pos, id)
    {
      AddedUnfolds(before, i, pos, id);
      if before[i].0 == pos {
        r := before[i := (pos, before[i].1 + [id])];
        return;
      }
    }
    AddedUnfolds(before, |before|, pos, id);
    r := before + [(pos, [id])];
  }

  lemma AddedUnfolds(r: ResultMap, i: nat, pos: Position, id: Id)
    requires i <= |r|
    ensures i == |r| ==> r[..i] + Added(r[i..], pos, id) == r + [(pos, [id])]
    ensures i < |r| ==>
              r[..i] + Added(r[i..], pos, id) ==
              if r[i].0 == pos then r[i := (pos, r[i].1 + [id])] else r[..i + 1] + Added(r[i + 1..], pos, id)
  {
    if i < |r| {
      assert r[i..][0] == r[i] && r[i..][1..] == r[i + 1..];
      assert r[..i] + [r[i]] == r[..i + 1];
    }
  }

  method FindClosest(w: World, center: Creature, seen: seq<Creature>, before: set<Id>)
    returns (visited: set<Id>, closest: Option<Creature>)
    ensures (visited, closest) == Scan(w, center, seen, before, None)
  {
    visited, closest := before, None;
    assert seen[0..] == seen;
    for i := 0 to |seen|
      invariant Scan(w, center, seen, before, None) == Scan(w, center, seen[i..], visited, closest)
    {
      var spectator := seen[i];
      assert seen[i..][0] == spectator && seen[i..][1..] == seen[i + 1..];
      if spectator.id in visited {
        continue;
      }
      if w.Barred(spectator) || !w.valid(center, spectator) {
        visited := visited + {spectator.id};
        continue;
      }
      if closest.None? || Dist(center, spectator) < Dist(center, closest.value) {
        closest := Some(spectator);
      }
    }
    assert seen[|seen|..] == [];
  }

  method PickChainTargets(w: World, requested: Small, initialTarget: Option<Creature>) returns (resultMap: ResultMap)
    ensures resultMap == AddedAll([], Links(w, requested, initialTarget))
  {
    ghost var links := Links(w, requested, initialTarget);
    var maxTargets: nat := requested;
    var targets: seq<Creature>, visited: set<Id> := [], {};
    resultMap := [];
    if initialTarget.Some? && initialTarget.value != w.caster {
      targets := [initialTarget.value];
      visited := {initialTarget.value.id};
      resultMap := [(w.caster.pos, [initialTarget.value.id])];
      assert links[1..] == Run(w, maxTargets, targets, visited, BACKTRACKING_ATTEMPTS);
    } else {
      targets := [w.caster];
      maxTargets := (maxTargets + 1) % 0x100;
    }
    var backtrackingAttempts := BACKTRACKING_ATTEMPTS;
    while targets != [] && |targets| < maxTargets && backtrackingAttempts > 0
      invariant AddedAll([], links) == AddedAll(resultMap, Run(w, maxTargets, targets, visited, backtrackingAttempts))
      decreases backtrackingAttempts, maxTargets - |targets|
    {
      var currentTarget := targets[|targets| - 1];
      ghost var run := Run(w, maxTargets, targets, visited, backtrackingAttempts);
      var closest;
      visited, closest := FindClosest(w, currentTarget, w.view(currentTarget.pos), visited);
      if closest.Some? {
        resultMap := AddLink(resultMap, currentTarget.pos, closest.value.id);
        targets := targets + [closest.value];
        visited := visited + {closest.value.id};
        assert run[1..] == Run(w, maxTargets, targets, visited, backtrackingAttempts);
        continue;
      }
      if w.backtracking {
        targets := targets[..|targets| - 1];
        backtrackingAttempts := backtrackingAttempts - 1;
        continue;
      }
      break;
    }
  }
}

/**
 * src/bestiary_charm.cpp as values: what a player owns in charms, echoes, points and gold, and what each charm action
 * makes of it. Subtractions of points and echoes are on natural numbers, so none of them can underflow.
 */
module CharmModel {
  import opened Options

  const CHARM_COUNT: nat := 25

  type CharmId = nat
  type RaceId = nat  // 0: none

  datatype Category = Major | Minor

  /** A row of player_bestiary_charms. */
  datatype Row = Row(tier: nat, race: RaceId)

  type Rows = map<CharmId, Row>

  // ---------------------------------------------------------------- definitions

  function CategoryOf(id: CharmId): Category {
    if id in {6, 9, 10, 11, 12, 13, 14, 17, 18, 20, 21} then Minor else Major
  }

  /** The price of the first tier; the others follow from it. */
  function BasePrice(id: CharmId): nat {
    if CategoryOf(id) == Minor then 100
    else if id in {0, 2, 8} then 240
    else if id in {3, 4} then 320
    else if id == 5 then 360
    else if id in {1, 7} then 400
    else if id in {15, 19} then 800
    else 600
  }

  /** Going from tier to tier + 1. */
  function Price(id: CharmId, tier: nat): nat {
    if tier == 0 then BasePrice(id)
    else if tier == 1 then BasePrice(id) * 3 / 2
    else if tier == 2 then (if CategoryOf(id) == Minor then 225 else BasePrice(id) * 5)
    else 0
  }

  /** Echoes for taking a major charm from tier to tier + 1. */
  function EchoReward(tier: nat): nat {
    25 * tier * tier + 25 * tier + 50
  }

  function SpentOn(id: CharmId, tier: nat): nat {
    if tier == 0 then 0 else SpentOn(id, tier - 1) + Price(id, tier - 1)
  }

  function RewardFor(tier: nat): nat {
    if tier == 0 then 0 else RewardFor(tier - 1) + EchoReward(tier - 1)
  }

  // ---------------------------------------------------------------- sums over the charms

  function TierOf(rows: Rows, id: CharmId): nat {
    if id in rows then rows[id].tier else 0
  }

  function RaceOf(rows: Rows, id: CharmId): RaceId {
    if id in rows then rows[id].race else 0
  }

  function Spent(rows: Rows, category: Category, n: nat): nat {
    if n == 0 then 0
    else Spent(rows, category, n - 1) + if CategoryOf(n - 1) == category then SpentOn(n - 1, TierOf(rows, n - 1)) else 0
  }

  function Rewards(rows: Rows, n: nat): nat {
    if n == 0 then 0
    else Rewards(rows, n - 1) + if CategoryOf(n - 1) == Major then RewardFor(TierOf(rows, n - 1)) else 0
  }

  function Assigned(rows: Rows, n: nat): nat {
    if n == 0 then 0
    else Assigned(rows, n - 1) + if TierOf(rows, n - 1) > 0 && RaceOf(rows, n - 1) > 0 then 1 else 0
  }

  lemma {:induction false} SumsAfterUpdate(rows: Rows, id: CharmId, row: Row, n: nat)
    ensures var after := rows[id := row];
            && Spent(after, CategoryOf(id), n) ==
               Spent(rows, CategoryOf(id), n)
               + (if id < n then SpentOn(id, row.tier) - SpentOn(id, TierOf(rows, id)) else 0)
            && (forall c | c != CategoryOf(id) :: Spent(after, c, n) == Spent(rows, c, n))
            && Rewards(after, n) ==
               Rewards(rows, n)
               + (if id < n && CategoryOf(id) == Major then RewardFor(row.tier) - RewardFor(TierOf(rows, id)) else 0)
            && Assigned(after, n) ==
               Assigned(rows, n) + (if id < n && row.tier > 0 && row.race > 0 then 1 else 0)
               - (if id < n && TierOf(rows, id) > 0 && RaceOf(rows, id) > 0 then 1 else 0)
  {
    if n == 0 {
    } else {
      SumsAfterUpdate(rows, id, row, n - 1);
    }
  }

  lemma {:induction false} SumsOfNothing(rows: Rows, n: nat)
    requires forall id | id in rows :: rows[id].tier == 0
    ensures Spent(rows, Major, n) == Spent(rows, Minor, n) == Rewards(rows, n) == Assigned(rows, n) == 0
  {
    if n == 0 {
    } else {
      SumsOfNothing(rows, n - 1);
    }
  }

  // ---------------------------------------------------------------- state

  /**
   * rows, minor and max are stored; points and money belong to the player object; cache is the remembered state of the
   * player, if any.
   */
  datatype State = State(rows: Rows, minor: nat, max: nat, points: nat, inventory: nat, bank: nat, cache: Option<Rows>)

  /** Whether the database reads, the transaction, the assignment, the payment and the restoring succeed. */
  datatype Env = Env(readsRows: bool, readsEchoes: bool, commits: bool, pays: bool, restores: bool)

  /** What is known of a creature: the kills of the player suffice for a charm of the category. */
  datatype Creature = Unknown | Known(enoughForMajor: bool, enoughForMinor: bool)

  datatype Request =
    | Upgrade(id: CharmId)
    | Assign(id: CharmId, race: RaceId, creature: Creature, premium: bool)
    | Remove(id: CharmId, level: nat)
    | Reset(level: nat)

  function Capped(rows: Rows): Rows {
    map id | id in rows :: Row(if rows[id].tier > 3 then 3 else rows[id].tier, rows[id].race)
  }

  /** loadCharmStates: a query that fails reads as no rows. */
  function Loaded(s: State, env: Env): Rows {
    if env.readsRows then Capped(s.rows) else map[]
  }

  /** getMinorCharmEchoes: a query that fails reads as no echoes. */
  function Echoes(s: State, env: Env): (nat, nat) {
    if env.readsEchoes then (s.minor, s.max) else (0, 0)
  }

  function Gold(s: State): nat {
    s.inventory + s.bank
  }

  function ResetCost(level: nat): nat {
    100000 + if level > 100 then level * 11000 else 0
  }

  /** removeGold: the inventory first, then the bank; taking coins from the inventory may fail. */
  function Paid(s: State, amount: nat, env: Env): Option<State> {
    var fromInventory := if s.inventory < amount then s.inventory else amount;
    if Gold(s) < amount || (fromInventory > 0 && !env.pays) then None
    else Some(s.(inventory := s.inventory - fromInventory, bank := s.bank - (amount - fromInventory)))
  }

  function WithTier(rows: Rows, id: CharmId, tier: nat): Rows {
    rows[id := Row(tier, RaceOf(rows, id))]
  }

  function WithRace(rows: Rows, id: CharmId, race: RaceId): Rows {
    if id in rows then rows[id := rows[id].(race := race)] else rows
  }

  function AllReset(rows: Rows): Rows {
    map id | id in rows :: Row(0, 0)
  }

  /** Another charm of the same category has the creature. */
  predicate Taken(states: Rows, id: CharmId, race: RaceId) {
    exists other | other in states :: other != id && states[other].tier != 0 && states[other].race == race
                                      && other < CHARM_COUNT && CategoryOf(other) == CategoryOf(id)
  }

  function DoUpgrade(s: State, id: CharmId, env: Env): (State, bool) {
    var tier := TierOf(Loaded(s, env), id);
    if tier >= 3 then (s, false) else
      var price := Price(id, tier);
      var (minor, max) := Echoes(s, env);
      if price == 0 || (if CategoryOf(id) == Major then s.points else minor) < price || !env.commits then (s, false)
      else if CategoryOf(id) == Major then
        (s.(rows := WithTier(s.rows, id, tier + 1), minor := minor + EchoReward(tier), max := max + EchoReward(tier),
            points := s.points - price, cache := None), true)
      else (s.(rows := WithTier(s.rows, id, tier + 1), minor := minor - price, max := max, cache := None), true)
  }

  /** A reset that cannot be paid for is taken back; when even that fails the charms stay reset. */
  function DoReset(s: State, level: nat, env: Env): (State, bool) {
    var states := Loaded(s, env);
    var (minor, max) := Echoes(s, env);
    if Gold(s) < ResetCost(level) || !env.commits then (s, false) else
      var reset := s.(rows := AllReset(s.rows), minor := 0, max := 0,
                      points := s.points + Spent(states, Major, CHARM_COUNT), cache := None);
      match Paid(reset, ResetCost(level), env)
      case Some(paid) => (paid, true)
      case None =>
        (if env.restores then reset.(rows := states, minor := minor, max := max, points := s.points) else reset, false)
  }

  function DoAssign(s: State, id: CharmId, race: RaceId, creature: Creature, premium: bool, env: Env): (State, bool) {
    var states := Loaded(s, env);
    if TierOf(states, id) == 0 || creature.Unknown? then (s, false)
    else if !(if CategoryOf(id) == Major then creature.enoughForMajor else creature.enoughForMinor) then (s, false)
    else if RaceOf(states, id) == 0 && Assigned(states, CHARM_COUNT) >= (if premium then 6 else 2) then (s, false)
    else if Taken(states, id, race) || !env.commits then (s, false)
    else (s.(rows := WithRace(s.rows, id, race), cache := None), true)
  }

  function DoRemove(s: State, id: CharmId, level: nat, env: Env): (State, bool) {
    var states := Loaded(s, env);
    if TierOf(states, id) == 0 || RaceOf(states, id) == 0 then (s, false)
    else if Gold(s) < level * 100 || !env.commits then (s, false) else
      var removed := s.(rows := WithRace(s.rows, id, 0), cache := None);
      match Paid(removed, level * 100, env)
      case Some(paid) => (paid, true)
      case None => (if env.restores then removed.(rows := states) else removed, false)
  }

  /** handleCharmAction: the new state and whether the request succeeded. */
  function Handle(s: State, r: Request, env: Env): (State, bool) {
    if !r.Reset? && r.id >= CHARM_COUNT then (s, false) else
      match r
      case Upgrade(id) => DoUpgrade(s, id, env)
      case Assign(id, race, creature, premium) => DoAssign(s, id, race, creature, premium, env)
      case Remove(id, level) => DoRemove(s, id, level, env)
      case Reset(level) => DoReset(s, level, env)
  }

  // ---------------------------------------------------------------- invariants

  predicate RowOk(id: CharmId, row: Row) {
    id < CHARM_COUNT && row.tier <= 3 && (row.tier == 0 ==> row.race == 0)
  }

  predicate Apart(rows: Rows, i: CharmId, j: CharmId) {
    i in rows && j in rows && i != j && CategoryOf(i) == CategoryOf(j) && rows[i].race != 0 ==>
      rows[i].race != rows[j].race
  }

  ghost predicate RowsOk(rows: Rows) {
    && (forall id | id in rows :: RowOk(id, rows[id]))
    && (forall i, j :: Apart(rows, i, j))
    && Assigned(rows, CHARM_COUNT) <= 6
  }

  /** Points and echoes add up to what was earned and rewarded. */
  predicate Balanced(s: State, earned: nat) {
    && s.points + Spent(s.rows, Major, CHARM_COUNT) == earned
    && s.minor + Spent(s.rows, Minor, CHARM_COUNT) == s.max
    && s.max == Rewards(s.rows, CHARM_COUNT)
  }

  ghost predicate Sound(s: State, earned: nat) {
    RowsOk(s.rows) && Balanced(s, earned) && (s.cache == None || s.cache == Some(s.rows))
  }

  lemma CappedIsSame(rows: Rows)
    requires forall id | id in rows :: RowOk(id, rows[id])
    ensures Capped(rows) == rows
  {
  }

  lemma TierKeepsRows(rows: Rows, id: CharmId, tier: nat)
    requires RowsOk(rows) && id < CHARM_COUNT && 0 < tier <= 3
    ensures RowsOk(WithTier(rows, id, tier))
  {
    var after := WithTier(rows, id, tier);
    SumsAfterUpdate(rows, id, Row(tier, RaceOf(rows, id)), CHARM_COUNT);
    assert id in rows ==> RowOk(id, rows[id]);
    forall i, j
      ensures Apart(after, i, j)
    {
      assert Apart(rows, i, j);
    }
  }

  lemma RaceKeepsRows(rows: Rows, id: CharmId, race: RaceId)
    requires RowsOk(rows) && TierOf(rows, id) > 0
    requires race != 0 ==> !Taken(rows, id, race)
    requires race != 0 && RaceOf(rows, id) == 0 ==> Assigned(rows, CHARM_COUNT) < 6
    ensures RowsOk(WithRace(rows, id, race))
    ensures forall c :: Spent(WithRace(rows, id, race), c, CHARM_COUNT) == Spent(rows, c, CHARM_COUNT)
    ensures Rewards(WithRace(rows, id, race), CHARM_COUNT) == Rewards(rows, CHARM_COUNT)
  {
    var after := WithRace(rows, id, race);
    SumsAfterUpdate(rows, id, rows[id].(race := race), CHARM_COUNT);
    assert RowOk(id, rows[id]);
    forall i, j
      ensures Apart(after, i, j)
    {
      assert Apart(rows, i, j);
      if i in rows && j in rows {
        assert RowOk(i, rows[i]) && RowOk(j, rows[j]);
      }
    }
  }

  /** The rules that do not depend on the books: rows obey them and the cache, if filled, agrees with the rows. */
  ghost predicate InOrder(s: State) {
    RowsOk(s.rows) && (s.cache == None || s.cache == Some(s.rows))
  }

  lemma InOrderParts(s: State)
    ensures InOrder(s) <==> RowsOk(s.rows) && (s.cache == None || s.cache == Some(s.rows))
    ensures RowsOk(s.rows) ==> forall id | id in s.rows :: RowOk(id, s.rows[id])
  {
  }

  lemma BalancedParts(s: State, earned: nat)
    ensures Balanced(s, earned) <==>
              && s.points + Spent(s.rows, Major, CHARM_COUNT) == earned
              && s.minor + Spent(s.rows, Minor, CHARM_COUNT) == s.max
              && s.max == Rewards(s.rows, CHARM_COUNT)
  {
  }

  lemma SpentStartsAtOne(id: CharmId, tier: nat)
    ensures SpentOn(id, 0) == RewardFor(0) == 0
    ensures tier > 0 ==> SpentOn(id, tier) > 0
  {
    if tier > 1 {
      SpentStartsAtOne(id, tier - 1);
    }
  }

  lemma NextTier(id: CharmId, tier: nat)
    ensures SpentOn(id, tier + 1) == SpentOn(id, tier) + Price(id, tier)
    ensures RewardFor(tier + 1) == RewardFor(tier) + EchoReward(tier)
  {
  }

  /** Where no points are spent on major charms, no echoes were rewarded for them. */
  lemma {:induction false} NothingSpentNothingRewarded(rows: Rows, n: nat)
    requires Spent(rows, Major, n) == 0
    ensures Rewards(rows, n) == 0
  {
    if n == 0 {
    } else {
      NothingSpentNothingRewarded(rows, n - 1);
      SpentStartsAtOne(n - 1, TierOf(rows, n - 1));
    }
  }

  // ---------------------------------------------------------------- when a request keeps the books

  /** The tier an upgrade reads. */
  function TierRead(s: State, id: CharmId, env: Env): nat {
    if env.readsRows then TierOf(s.rows, id) else 0
  }

  /** An upgrade that goes through: the charm as read may go up, and what was read can pay for it. */
  predicate Upgrades(s: State, id: CharmId, env: Env) {
    && id < CHARM_COUNT && env.commits && TierRead(s, id, env) < 3
    && 0 < Price(id, TierRead(s, id, env)) <=
       if CategoryOf(id) == Major then s.points else if env.readsEchoes then s.minor else 0
  }

  /** An upgrade that goes through is harmless when what it could not read was nothing. */
  predicate HarmlessUpgrade(s: State, id: CharmId, env: Env) {
    && (env.readsRows || TierOf(s.rows, id) == 0)
    && (env.readsEchoes || CategoryOf(id) == Minor || s.max == 0)
  }

  /** A reset that is committed is harmless when what it could not read, and would refund or restore, was nothing. */
  predicate HarmlessReset(s: State, paid: bool, env: Env) {
    && (env.readsRows || Spent(s.rows, Major, CHARM_COUNT) == 0)
    && (env.readsEchoes || paid || !env.restores || s.max == 0)
  }

  predicate Harmless(s: State, r: Request, env: Env) {
    match r
    case Upgrade(id) => Upgrades(s, id, env) ==> HarmlessUpgrade(s, id, env)
    case Reset(level) =>
      env.commits && Gold(s) >= ResetCost(level) ==> HarmlessReset(s, Paid(s, ResetCost(level), env).Some?, env)
    case _ => true
  }

  lemma UpgradeUnfolds(s: State, id: CharmId, env: Env)
    requires env.readsRows ==> Capped(s.rows) == s.rows
    ensures var ((after, ok), tier, (minor, max)) := (DoUpgrade(s, id, env), TierRead(s, id, env), Echoes(s, env));
            if !ok then after == s else
              && tier < 3 && after.cache == None
              && after.rows == s.rows[id := Row(tier + 1, RaceOf(s.rows, id))] == WithTier(s.rows, id, tier + 1)
              && (if CategoryOf(id) == Major then
                    && after.points == s.points - Price(id, tier)
                    && after.minor == minor + EchoReward(tier) && after.max == max + EchoReward(tier)
                  else
                    && after.points == s.points && env.readsEchoes
                    && after.minor == minor - Price(id, tier) && after.max == max)
    ensures DoUpgrade(s, id, env).1 && id < CHARM_COUNT <==> Upgrades(s, id, env)
    ensures Echoes(s, env) == if env.readsEchoes then (s.minor, s.max) else (0, 0)
    ensures CHARM_COUNT == 25
  {
  }

  /** An upgrade keeps the rules whatever it could read, and the books exactly when it is harmless. */
  lemma UpgradeKeeps(s: State, id: CharmId, env: Env, earned: nat)
    requires InOrder(s) && Balanced(s, earned) && id < CHARM_COUNT
    ensures InOrder(DoUpgrade(s, id, env).0)
    ensures DoUpgrade(s, id, env).1 <==> Upgrades(s, id, env)
    ensures Balanced(DoUpgrade(s, id, env).0, earned) <==> (Upgrades(s, id, env) ==> HarmlessUpgrade(s, id, env))
  {
    hide *;
    InOrderParts(s);
    CappedIsSame(s.rows);
    UpgradeUnfolds(s, id, env);
    if DoUpgrade(s, id, env).1 {
      var after, tier := DoUpgrade(s, id, env).0, TierRead(s, id, env);
      TierKeepsRows(s.rows, id, tier + 1);
      InOrderParts(after);
      UpgradeBalances(s, after, id, tier, env, earned);
    }
  }

  lemma UpgradeBalances(s: State, after: State, id: CharmId, tier: nat, env: Env, earned: nat)
    requires Balanced(s, earned) && id < CHARM_COUNT && tier == TierRead(s, id, env)
    requires after.rows == s.rows[id := Row(tier + 1, RaceOf(s.rows, id))]
    requires var (minor, max) := Echoes(s, env);
             if CategoryOf(id) == Major then
               && after.points == s.points - Price(id, tier)
               && after.minor == minor + EchoReward(tier) && after.max == max + EchoReward(tier)
             else
               && after.points == s.points && env.readsEchoes
               && after.minor == minor - Price(id, tier) && after.max == max
    ensures Balanced(after, earned) <==> HarmlessUpgrade(s, id, env)
  {
    hide *;
    HarmlessParts(s, id, env);
    BalancedParts(s, earned);
    BalancedParts(after, earned);
    SumsAfterUpdate(s.rows, id, Row(tier + 1, RaceOf(s.rows, id)), CHARM_COUNT);
    NextTier(id, tier);
    NextTier(id, 0);
    SpentStartsAtOne(id, TierOf(s.rows, id));
  }

  lemma HarmlessParts(s: State, id: CharmId, env: Env)
    ensures HarmlessUpgrade(s, id, env) <==>
              && (env.readsRows || TierOf(s.rows, id) == 0)
              && (env.readsEchoes || CategoryOf(id) == Minor || s.max == 0)
    ensures TierRead(s, id, env) == if env.readsRows then TierOf(s.rows, id) else 0
    ensures Echoes(s, env) == if env.readsEchoes then (s.minor, s.max) else (0, 0)
  {
  }

  lemma ResetUnfolds(s: State, level: nat, env: Env)
    requires env.readsRows ==> Capped(s.rows) == s.rows
    requires env.commits && Gold(s) >= ResetCost(level)
    ensures var after, paid := DoReset(s, level, env).0, Paid(s, ResetCost(level), env).Some?;
            var states := if env.readsRows then s.rows else map[];
            && after.cache == None && DoReset(s, level, env).1 == paid
            && (!paid ==> after.inventory == s.inventory && after.bank == s.bank)
            && (if !paid && env.restores then
                  && after.rows == states && (after.minor, after.max) == Echoes(s, env) && after.points == s.points
                else
                  && after.rows == AllReset(s.rows) && after.minor == after.max == 0
                  && after.points == s.points + Spent(states, Major, CHARM_COUNT))
  {
  }

  lemma ResetRowsOk(rows: Rows)
    requires RowsOk(rows)
    ensures RowsOk(AllReset(rows)) && RowsOk(map[])
  {
    SumsOfNothing(AllReset(rows), CHARM_COUNT);
    SumsOfNothing(map[], CHARM_COUNT);
    forall id | id in rows
      ensures RowOk(id, AllReset(rows)[id])
    {
      assert RowOk(id, rows[id]);
    }
  }

  /** A reset keeps the rules whatever it could read, and the books exactly when it is harmless. */
  lemma ResetKeeps(s: State, level: nat, env: Env, earned: nat)
    requires InOrder(s) && Balanced(s, earned)
    ensures InOrder(DoReset(s, level, env).0)
    ensures Balanced(DoReset(s, level, env).0, earned) <==> Harmless(s, Reset(level), env)
  {
    CappedIsSame(s.rows);
    if env.commits && Gold(s) >= ResetCost(level) {
      ResetRowsOk(s.rows);
      ResetUnfolds(s, level, env);
      ResetBalances(s, DoReset(s, level, env).0, Paid(s, ResetCost(level), env).Some?, env, earned);
    }
  }

  lemma ResetBalances(s: State, after: State, paid: bool, env: Env, earned: nat)
    requires Balanced(s, earned)
    requires var states := if env.readsRows then s.rows else map[];
             if !paid && env.restores then
               && after.rows == states && (after.minor, after.max) == Echoes(s, env) && after.points == s.points
             else
               && after.rows == AllReset(s.rows) && after.minor == after.max == 0
               && after.points == s.points + Spent(states, Major, CHARM_COUNT)
    ensures Balanced(after, earned) <==> HarmlessReset(s, paid, env)
  {
    hide *;
    BalancedParts(s, earned);
    BalancedParts(after, earned);
    HarmlessResetParts(s, paid, env);
    AllResetTiers(s.rows);
    SumsOfNothing(AllReset(s.rows), CHARM_COUNT);
    SumsOfNothing(map[], CHARM_COUNT);
    if Spent(s.rows, Major, CHARM_COUNT) == 0 {
      NothingSpentNothingRewarded(s.rows, CHARM_COUNT);
    }
  }

  lemma HarmlessResetParts(s: State, paid: bool, env: Env)
    ensures HarmlessReset(s, paid, env) <==>
              && (env.readsRows || Spent(s.rows, Major, CHARM_COUNT) == 0)
              && (env.readsEchoes || paid || !env.restores || s.max == 0)
    ensures Echoes(s, env) == if env.readsEchoes then (s.minor, s.max) else (0, 0)
  {
  }

  lemma AllResetTiers(rows: Rows)
    ensures AllReset(rows).Keys == rows.Keys && forall id | id in rows :: AllReset(rows)[id] == Row(0, 0)
  {
  }

  /** Assigning a creature keeps rules and books: without the rows it only refuses. */
  lemma AssignKeeps(s: State, id: CharmId, race: RaceId, creature: Creature, premium: bool, env: Env, earned: nat)
    requires InOrder(s) && Balanced(s, earned) && id < CHARM_COUNT
    ensures InOrder(DoAssign(s, id, race, creature, premium, env).0)
    ensures Balanced(DoAssign(s, id, race, creature, premium, env).0, earned)
  {
    CappedIsSame(s.rows);
    if DoAssign(s, id, race, creature, premium, env).1 {
      RaceKeepsRows(s.rows, id, race);
    }
  }

  lemma RemoveKeeps(s: State, id: CharmId, level: nat, env: Env, earned: nat)
    requires InOrder(s) && Balanced(s, earned) && id < CHARM_COUNT
    ensures InOrder(DoRemove(s, id, level, env).0) && Balanced(DoRemove(s, id, level, env).0, earned)
  {
    CappedIsSame(s.rows);
    if TierOf(s.rows, id) > 0 {
      RaceKeepsRows(s.rows, id, 0);
    }
  }

  /**
   * Whatever a request comes to and whatever it could read, the rules hold and the cache agrees with the rows; the
   * books still balance exactly when the request was harmless.
   */
  lemma HandleKeeps(s: State, r: Request, env: Env, earned: nat)
    requires Sound(s, earned)
    ensures InOrder(Handle(s, r, env).0)
    ensures Balanced(Handle(s, r, env).0, earned) <==> Harmless(s, r, env)
  {
    if r.Reset? {
      ResetKeeps(s, r.level, env, earned);
    } else if r.id < CHARM_COUNT {
      match r
      case Upgrade(id) => UpgradeKeeps(s, id, env, earned);
      case Assign(id, race, creature, premium) => AssignKeeps(s, id, race, creature, premium, env, earned);
      case Remove(id, level) => RemoveKeeps(s, id, level, env, earned);
    }
  }

  // ---------------------------------------------------------------- what requests cost and change

  /** The inventory can pay its part: nothing is taken from it, or taking it does not fail. */
  predicate Payable(s: State, amount: nat, env: Env) {
    Gold(s) >= amount && (amount == 0 || s.inventory == 0 || env.pays)
  }

  /** A payment takes exactly its amount, and from the bank only what an empty inventory leaves to be paid. */
  lemma PaymentTakesTheAmount(s: State, amount: nat, env: Env)
    ensures Paid(s, amount, env).Some? <==> Payable(s, amount, env)
    ensures Paid(s, amount, env).Some? ==>
              var t := Paid(s, amount, env).value;
              && Gold(t) == Gold(s) - amount && t.inventory <= s.inventory && t.bank <= s.bank
              && (t.bank < s.bank ==> t.inventory == 0)
              && t == s.(inventory := t.inventory, bank := t.bank)
  {
  }

  function Cost(r: Request): nat {
    match r
    case Reset(level) => ResetCost(level)
    case Remove(_, level) => level * 100
    case _ => 0
  }

  /** A request costs its price in gold when it succeeds and nothing when it does not. */
  lemma HandleCosts(s: State, r: Request, env: Env)
    ensures Gold(Handle(s, r, env).0) == Gold(s) - if Handle(s, r, env).1 then Cost(r) else 0
  {
  }

  /** The creature may be assigned to the charm, for all that is stored. */
  predicate Assignable(s: State, id: CharmId, race: RaceId, creature: Creature, premium: bool) {
    && TierOf(s.rows, id) > 0 && creature.Known?
    && (if CategoryOf(id) == Major then creature.enoughForMajor else creature.enoughForMinor)
    && (RaceOf(s.rows, id) > 0 || Assigned(s.rows, CHARM_COUNT) < if premium then 6 else 2)
    && forall other | other in s.rows && other != id && CategoryOf(other) == CategoryOf(id) && s.rows[other].tier > 0 ::
         s.rows[other].race != race
  }

  /** What has to hold before a request for it to succeed. */
  predicate Succeeds(s: State, r: Request, env: Env) {
    match r
    case Upgrade(id) => Upgrades(s, id, env)
    case Assign(id, race, creature, premium) =>
      id < CHARM_COUNT && env.readsRows && env.commits && Assignable(s, id, race, creature, premium)
    case Remove(id, _) =>
      && id < CHARM_COUNT && env.readsRows && env.commits && TierOf(s.rows, id) > 0 && RaceOf(s.rows, id) > 0
      && Payable(s, Cost(r), env)
    case Reset(_) => env.commits && Payable(s, Cost(r), env)
  }

  /** A request succeeds exactly under the conditions of its kind. */
  lemma SucceedsExactlyWhen(s: State, r: Request, env: Env)
    requires InOrder(s)
    ensures Handle(s, r, env).1 <==> Succeeds(s, r, env)
  {
    CappedIsSame(s.rows);
    match r
    case Upgrade(id) => UpgradeUnfolds(s, id, env);
    case Assign(id, race, creature, premium) => AssignSucceeds(s, id, race, creature, premium, env);
    case Remove(id, _) => PaymentTakesTheAmount(s.(rows := WithRace(s.rows, id, 0), cache := None), Cost(r), env);
    case Reset(_) =>
  }

  lemma AssignSucceeds(s: State, id: CharmId, race: RaceId, creature: Creature, premium: bool, env: Env)
    requires InOrder(s)
    ensures DoAssign(s, id, race, creature, premium, env).1 <==>
            env.readsRows && env.commits && Assignable(s, id, race, creature, premium)
  {
    CappedIsSame(s.rows);
    assert forall other | other in s.rows :: RowOk(other, s.rows[other]);
  }

  /** A request that succeeds changes the rows it is about to what was asked for, and no others. */
  lemma SuccessChangesRows(s: State, r: Request, env: Env)
    requires InOrder(s) && Handle(s, r, env).1
    ensures var after := Handle(s, r, env).0.rows;
            match r
            case Upgrade(id) => after == s.rows[id := Row(TierRead(s, id, env) + 1, RaceOf(s.rows, id))]
            case Assign(id, race, _, _) => after == s.rows[id := Row(TierOf(s.rows, id), race)]
            case Remove(id, _) => after == s.rows[id := Row(TierOf(s.rows, id), 0)]
            case Reset(_) => after.Keys == s.rows.Keys && forall id | id in after :: after[id] == Row(0, 0)
  {
    CappedIsSame(s.rows);
    if r.Upgrade? {
      UpgradeUnfolds(s, r.id, env);
    }
  }

  /** Nothing needs undoing, or what was changed is put back as it was. */
  predicate Undone(s: State, r: Request, env: Env) {
    match r
    case Reset(level) =>
      env.commits && Gold(s) >= ResetCost(level) ==>
        if env.restores then (env.readsRows || s.rows == map[]) && (env.readsEchoes || s.max == 0)
        else forall id | id in s.rows :: s.rows[id].tier == 0
    case Remove(id, level) =>
      id < CHARM_COUNT && TierRead(s, id, env) > 0 && RaceOf(s.rows, id) > 0
      && env.commits && Gold(s) >= level * 100 ==>
        env.restores
    case _ => true
  }

  lemma ResetUndone(s: State, level: nat, env: Env, earned: nat)
    requires Sound(s, earned) && env.commits && Gold(s) >= ResetCost(level) && !DoReset(s, level, env).1
    ensures DoReset(s, level, env).0.(cache := s.cache) == s <==> Undone(s, Reset(level), env)
  {
    hide *;
    InOrderParts(s);
    SoundParts(s, earned);
    CappedIsSame(s.rows);
    ResetUnfolds(s, level, env);
    HarmlessResetParts(s, false, env);
    UndoneReset(s, level, env);
    AllResetTiers(s.rows);
    SumsOfNothing(map[], CHARM_COUNT);
    if forall id | id in s.rows :: s.rows[id].tier == 0 {
      SumsOfNothing(s.rows, CHARM_COUNT);
      UntouchedRows(s.rows);
    } else {
      var id :| id in s.rows && s.rows[id].tier != 0;
      assert AllReset(s.rows)[id] != s.rows[id];
    }
  }

  lemma SoundParts(s: State, earned: nat)
    requires Sound(s, earned)
    ensures InOrder(s)
    ensures s.points + Spent(s.rows, Major, CHARM_COUNT) == earned
    ensures s.minor + Spent(s.rows, Minor, CHARM_COUNT) == s.max == Rewards(s.rows, CHARM_COUNT)
  {
  }

  lemma UndoneReset(s: State, level: nat, env: Env)
    requires env.commits && Gold(s) >= ResetCost(level)
    ensures Undone(s, Reset(level), env) <==>
              if env.restores then (env.readsRows || s.rows == map[]) && (env.readsEchoes || s.max == 0)
              else forall id | id in s.rows :: s.rows[id].tier == 0
  {
  }

  lemma UntouchedRows(rows: Rows)
    requires RowsOk(rows) && forall id | id in rows :: rows[id].tier == 0
    ensures AllReset(rows) == rows
  {
    forall id | id in rows
      ensures rows[id] == Row(0, 0)
    {
      assert RowOk(id, rows[id]);
    }
  }

  /** A request that fails leaves all but the cache as it was exactly when nothing needs undoing or all is undone. */
  lemma FailureLeavesState(s: State, r: Request, env: Env, earned: nat)
    requires Sound(s, earned) && !Handle(s, r, env).1
    ensures Handle(s, r, env).0.(cache := s.cache) == s <==> Undone(s, r, env)
  {
    CappedIsSame(s.rows);
    if r.Reset? && env.commits && Gold(s) >= ResetCost(r.level) {
      ResetUndone(s, r.level, env, earned);
    }
  }

  // ---------------------------------------------------------------- runs

  /** Earn: points for kills. Look: getCachedCharmStates. Drop: invalidatePlayer. */
  datatype Step = Ask(request: Request, env: Env) | Earn(amount: nat) | Look(readsRows: bool) | Drop

  predicate HarmlessStep(s: State, step: Step) {
    match step
    case Ask(r, env) => Harmless(s, r, env)
    case Look(readsRows) => readsRows || s.cache != None || s.rows == map[]
    case _ => true
  }

  function After(s: State, step: Step): State {
    match step
    case Ask(r, env) => Handle(s, r, env).0
    case Earn(amount) => s.(points := s.points + amount)
    case Look(readsRows) =>
      if s.cache == None then s.(cache := Some(if readsRows then Capped(s.rows) else map[])) else s
    case Drop => s.(cache := None)
  }

  function EarnedBy(step: Step): nat {
    if step.Earn? then step.amount else 0
  }

  /** A cache filled while the rows cannot be read agrees with them exactly when there are none. */
  lemma UnreadCache(s: State, earned: nat)
    requires Sound(s, earned) && s.cache == None
    ensures Sound(After(s, Look(false)), earned) <==> s.rows == map[]
  {
  }

  /** A step keeps everything exactly when it is harmless. */
  lemma StepKeeps(s: State, step: Step, earned: nat)
    requires Sound(s, earned)
    ensures Sound(After(s, step), earned + EarnedBy(step)) <==> HarmlessStep(s, step)
  {
    match step {
      case Ask(r, env) => HandleKeeps(s, r, env, earned);
      case Look(_) => CappedIsSame(s.rows);
      case _ =>
    }
  }

  /** Sound at every moment of the run. */
  ghost predicate SoundThroughout(s: State, steps: seq<Step>, earned: nat)
    decreases |steps|
  {
    Sound(s, earned) &&
    (steps == [] || SoundThroughout(After(s, steps[0]), steps[1..], earned + EarnedBy(steps[0])))
  }

  predicate HarmlessRun(s: State, steps: seq<Step>)
    decreases |steps|
  {
    steps == [] || (HarmlessStep(s, steps[0]) && HarmlessRun(After(s, steps[0]), steps[1..]))
  }

  lemma RunUnfolds(s: State, steps: seq<Step>, earned: nat)
    ensures SoundThroughout(s, steps, earned) ==> Sound(s, earned)
    ensures steps == [] ==> HarmlessRun(s, steps) && (SoundThroughout(s, steps, earned) <==> Sound(s, earned))
    ensures steps != [] ==>
              var (next, total) := (After(s, steps[0]), earned + EarnedBy(steps[0]));
              && (HarmlessRun(s, steps) <==> HarmlessStep(s, steps[0]) && HarmlessRun(next, steps[1..]))
              && (SoundThroughout(s, steps, earned) <==> Sound(s, earned) && SoundThroughout(next, steps[1..], total))
              && (SoundThroughout(next, steps[1..], total) ==> Sound(next, total))
  {
  }

  /** A run keeps books, rules and cache throughout exactly when each of its steps is harmless. */
  lemma {:induction false} RunKeeps(s: State, steps: seq<Step>, earned: nat)
    requires Sound(s, earned)
    ensures SoundThroughout(s, steps, earned) <==> HarmlessRun(s, steps)
    decreases |steps|
  {
    hide *;
    RunUnfolds(s, steps, earned);
    if steps == [] {
    } else {
      StepKeeps(s, steps[0], earned);
      if HarmlessStep(s, steps[0]) {
        RunKeeps(After(s, steps[0]), steps[1..], earned + EarnedBy(steps[0]));
      }
    }
  }

  /** In particular when every query of the run succeeds. */
  predicate Read(step: Step) {
    match step
    case Ask(_, env) => env.readsRows && env.readsEchoes
    case Look(readsRows) => readsRows
    case _ => true
  }

  lemma {:induction false} ReadRunsAreHarmless(s: State, steps: seq<Step>)
    requires forall step | step in steps :: Read(step)
    ensures HarmlessRun(s, steps)
    decreases |steps|
  {
    if steps == [] {
    } else {
      assert Read(steps[0]) && forall step | step in steps[1..] :: step in steps;
      ReadRunsAreHarmless(After(s, steps[0]), steps[1..]);
    }
  }

  /** A player who starts with nothing keeps sound books throughout a run exactly when each of its steps is harmless. */
  lemma NewPlayerRuns(steps: seq<Step>, inventory: nat, bank: nat)
    ensures var s := State(map[], 0, 0, 0, inventory, bank, None);
            SoundThroughout(s, steps, 0) <==> HarmlessRun(s, steps)
  {
    SumsOfNothing(map[], CHARM_COUNT);
    RunKeeps(State(map[], 0, 0, 0, inventory, bank, None), steps, 0);
  }

  function Earned(steps: seq<Step>): nat {
    if steps == [] then 0 else EarnedBy(steps[0]) + Earned(steps[1..])
  }

  function AfterAll(s: State, steps: seq<Step>): State
    decreases |steps|
  {
    if steps == [] then s else AfterAll(After(s, steps[0]), steps[1..])
  }

  lemma {:induction false} SoundAtTheEnd(s: State, steps: seq<Step>, earned: nat)
    requires SoundThroughout(s, steps, earned)
    ensures Sound(AfterAll(s, steps), earned + Earned(steps))
    decreases |steps|
  {
    if steps == [] {
    } else {
      SoundAtTheEnd(After(s, steps[0]), steps[1..], earned + EarnedBy(steps[0]));
    }
  }

  /** After a harmless run points kept and spent add up to the points earned, and echoes stay within 32 bits. */
  lemma ReachableStates(steps: seq<Step>, inventory: nat, bank: nat)
    requires HarmlessRun(State(map[], 0, 0, 0, inventory, bank, None), steps)
    ensures Sound(AfterAll(State(map[], 0, 0, 0, inventory, bank, None), steps), Earned(steps))
    ensures AfterAll(State(map[], 0, 0, 0, inventory, bank, None), steps).max <= CHARM_COUNT * 350
  {
    var s := State(map[], 0, 0, 0, inventory, bank, None);
    NewPlayerRuns(steps, inventory, bank);
    SoundAtTheEnd(s, steps, 0);
    RewardsAreBounded(AfterAll(s, steps).rows, CHARM_COUNT);
  }

  /** What the requests of a run that succeed cost together. */
  function Costs(s: State, steps: seq<Step>): nat
    decreases |steps|
  {
    if steps == [] then 0
    else
      Costs(After(s, steps[0]), steps[1..]) +
      if steps[0].Ask? && Handle(s, steps[0].request, steps[0].env).1 then Cost(steps[0].request) else 0
  }

  /** In every run, whatever fails, the gold that is left and the costs of the requests that succeeded are the gold. */
  lemma {:induction false} GoldIsConserved(s: State, steps: seq<Step>)
    ensures Gold(AfterAll(s, steps)) + Costs(s, steps) == Gold(s)
    decreases |steps|
  {
    if steps == [] {
    } else {
      if steps[0].Ask? {
        HandleCosts(s, steps[0].request, steps[0].env);
      }
      GoldIsConserved(After(s, steps[0]), steps[1..]);
    }
  }

  /** The assigned charms a step may bring a player to. */
  function SlotsOf(step: Step): nat {
    if !step.Ask? || !step.request.Assign? then 0 else if step.request.premium then 6 else 2
  }

  lemma StepKeepsSlots(s: State, step: Step, earned: nat)
    requires Sound(s, earned)
    ensures Assigned(After(s, step).rows, CHARM_COUNT) <= Assigned(s.rows, CHARM_COUNT)
         || Assigned(After(s, step).rows, CHARM_COUNT) == Assigned(s.rows, CHARM_COUNT) + 1 <= SlotsOf(step)
  {
    if step.Ask? {
      RequestKeepsSlots(s, step.request, step.env);
    }
  }

  lemma RequestKeepsSlots(s: State, r: Request, env: Env)
    requires InOrder(s)
    ensures var n := Assigned(Handle(s, r, env).0.rows, CHARM_COUNT);
            || n <= Assigned(s.rows, CHARM_COUNT)
            || (r.Assign? && n == Assigned(s.rows, CHARM_COUNT) + 1 <= if r.premium then 6 else 2)
  {
    hide *;
    InOrderParts(s);
    CappedIsSame(s.rows);
    if Handle(s, r, env).1 {
      SuccessChangesRows(s, r, env);
      SucceedsExactlyWhen(s, r, env);
      SlotsAfterSuccess(s, r, env, Handle(s, r, env).0.rows);
    } else {
      SlotsAfterFailure(s, r, env);
    }
  }

  lemma SlotsAfterSuccess(s: State, r: Request, env: Env, after: Rows)
    requires InOrder(s) && Succeeds(s, r, env)
    requires match r
             case Upgrade(id) => after == s.rows[id := Row(TierRead(s, id, env) + 1, RaceOf(s.rows, id))]
             case Assign(id, race, _, _) => after == s.rows[id := Row(TierOf(s.rows, id), race)]
             case Remove(id, _) => after == s.rows[id := Row(TierOf(s.rows, id), 0)]
             case Reset(_) => after.Keys == s.rows.Keys && forall id | id in after :: after[id] == Row(0, 0)
    ensures var n := Assigned(after, CHARM_COUNT);
            || n <= Assigned(s.rows, CHARM_COUNT)
            || (r.Assign? && n == Assigned(s.rows, CHARM_COUNT) + 1 <= if r.premium then 6 else 2)
  {
    if r.Reset? {
      SumsOfNothing(after, CHARM_COUNT);
    } else {
      assert r.id in s.rows ==> RowOk(r.id, s.rows[r.id]);
      SumsAfterUpdate(s.rows, r.id, after[r.id], CHARM_COUNT);
    }
  }

  lemma SlotsAfterFailure(s: State, r: Request, env: Env)
    requires InOrder(s) && !Handle(s, r, env).1
    ensures Assigned(Handle(s, r, env).0.rows, CHARM_COUNT) <= Assigned(s.rows, CHARM_COUNT)
  {
    hide *;
    RowsAfterFailure(s, r, env);
    AllResetTiers(s.rows);
    SumsOfNothing(AllReset(s.rows), CHARM_COUNT);
    SumsOfNothing(map[], CHARM_COUNT);
    if !r.Reset? {
      SumsAfterUpdate(s.rows, r.id, Row(TierOf(s.rows, r.id), 0), CHARM_COUNT);
    }
  }

  lemma RowsAfterFailure(s: State, r: Request, env: Env)
    requires InOrder(s) && !Handle(s, r, env).1
    ensures var rows := Handle(s, r, env).0.rows;
            || rows == s.rows || (r.Reset? && (rows == AllReset(s.rows) || rows == map[]))
            || (r.Remove? && rows == s.rows[r.id := Row(TierOf(s.rows, r.id), 0)])
  {
    CappedIsSame(s.rows);
  }

  /** In a harmless run without premium at most two charms are assigned, unless there were more before. */
  lemma {:induction false} FreeAccountsKeepTwoSlots(s: State, steps: seq<Step>, earned: nat)
    requires Sound(s, earned) && HarmlessRun(s, steps)
    requires forall step | step in steps :: SlotsOf(step) <= 2
    ensures Assigned(AfterAll(s, steps).rows, CHARM_COUNT) <= 2
         || Assigned(AfterAll(s, steps).rows, CHARM_COUNT) <= Assigned(s.rows, CHARM_COUNT)
    decreases |steps|
  {
    if steps == [] {
    } else {
      assert steps[0] in steps && forall step | step in steps[1..] :: step in steps;
      StepKeeps(s, steps[0], earned);
      StepKeepsSlots(s, steps[0], earned);
      FreeAccountsKeepTwoSlots(After(s, steps[0]), steps[1..], earned + EarnedBy(steps[0]));
    }
  }

  lemma {:induction false} RewardsAreBounded(rows: Rows, n: nat)
    requires forall id | id in rows :: RowOk(id, rows[id])
    ensures Rewards(rows, n) <= n * 350
  {
    if n == 0 {
    } else {
      RewardsAreBounded(rows, n - 1);
      assert n - 1 in rows ==> RowOk(n - 1, rows[n - 1]);
      assert RewardFor(3) == 350 && RewardFor(2) == 150 && RewardFor(1) == 50;
    }
  }
}

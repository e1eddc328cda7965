/**
 * src/character_bazaar.cpp: character auctions over transactional tables. Auctions are created and finalised here; bids
 * come from outside, and so may other changes to the balances.
 */
module CharacterBazaar {
  import opened Options
  import opened Transactions

  const MAX_TIBIA_COINS: nat := 4294967295

  type AccountId = nat
  type PlayerId = nat
  type AuctionId = nat

  datatype Status = Active | Finished | Cancelled

  /** bidder is 0 until there is a bid. */
  datatype Auction = Auction(player: PlayerId, seller: AccountId, bid: nat, bidder: AccountId, commissionPercent: nat,
                             status: Status, endAt: nat, winner: AccountId, finalPrice: nat)

  datatype Action = Created | ExpiredNoBid | FinishedSale

  datatype History = History(auction: AuctionId, action: Action, account: AccountId, player: PlayerId, amount: nat)

  /** accounts maps to the transferable coins, players to the owning account. */
  datatype Tables = Tables(accounts: map<AccountId, nat>, players: map<PlayerId, AccountId>,
                           auctions: map<AuctionId, Auction>, history: seq<History>)

  // ---------------------------------------------------------------- coins

  /** UPDATE .. SET tibia_coins = tibia_coins - amount, guarded by the balance. */
  function Debit(t: Tables, account: AccountId, amount: nat): Effect<Tables> {
    if account == 0 then Undone
    else if amount == 0 then Done(t)
    else if account in t.accounts && t.accounts[account] >= amount then
      Done(t.(accounts := t.accounts[account := t.accounts[account] - amount]))
    else Undone
  }

  function Credit(t: Tables, account: AccountId, amount: nat): Effect<Tables> {
    if account == 0 then Undone
    else if amount == 0 then Done(t)
    else if amount <= MAX_TIBIA_COINS && account in t.accounts && t.accounts[account] <= MAX_TIBIA_COINS - amount then
      Done(t.(accounts := t.accounts[account := t.accounts[account] + amount]))
    else Undone
  }

  // ---------------------------------------------------------------- finalisation

  function Commission(a: Auction): (c: nat)
    ensures c <= a.bid
  {
    var percent := if a.commissionPercent < 100 then a.commissionPercent else 100;
    assert a.bid * percent <= a.bid * 100;
    a.bid * percent / 100
  }

  function Payout(a: Auction): nat {
    a.bid - Commission(a)
  }

  /** The commission is the percentage of the bid, of all of it at most, rounded down to whole coins. */
  lemma CommissionIsThePercentage(a: Auction)
    ensures var percent := if a.commissionPercent < 100 then a.commissionPercent else 100;
            100 * Commission(a) <= a.bid * percent < 100 * Commission(a) + 100
    ensures Payout(a) + Commission(a) == a.bid
  {
  }

  predicate Expired(t: Tables, id: AuctionId, now: nat) {
    id in t.auctions && t.auctions[id].status == Active && t.auctions[id].endAt <= now
  }

  /**
   * The transaction body of finalizeAuction. readable: whether its SELECT succeeds; one that fails is taken for an
   * auction that has been finalised already.
   */
  function Finalize(t: Tables, id: AuctionId, now: nat, readable: bool): Effect<Tables> {
    if !readable || !Expired(t, id, now) then Done(t) else
      var a := t.auctions[id];
      if a.bidder == 0 || a.bid == 0 then
        Done(t.(auctions := t.auctions[id := a.(status := Cancelled)],
                history := t.history + [History(id, ExpiredNoBid, a.seller, a.player, 0)]))
      else if !Moves(t, a) then Undone
      else
        var moved := t.(players := t.players[a.player := a.bidder]);
        match Credit(moved, a.seller, Payout(a))
        case Undone => Undone
        case Done(paid) =>
          Done(paid.(auctions := paid.auctions[id := a.(status := Finished, winner := a.bidder, finalPrice := a.bid)],
                     history := paid.history + [History(id, FinishedSale, a.bidder, a.player, Payout(a))]))
  }

  /** The UPDATE that moves the character changes one row; the database counts rows that change. */
  predicate Moves(t: Tables, a: Auction) {
    a.player in t.players && t.players[a.player] == a.seller && a.bidder != a.seller
  }

  /** What a sale needs: the character is the seller's, the bidder is someone else, the payout fits the balance. */
  predicate Sellable(t: Tables, a: Auction) {
    && a.player in t.players && t.players[a.player] == a.seller != a.bidder && a.seller != 0
    && (Payout(a) == 0 || (a.seller in t.accounts && t.accounts[a.seller] + Payout(a) <= MAX_TIBIA_COINS))
  }

  /** A sale is carried out exactly when the character is still the seller's, the bidder is someone else, and the
      seller's balance has room for the payout. */
  lemma SaleIsPossible(t: Tables, id: AuctionId, now: nat)
    requires Expired(t, id, now) && t.auctions[id].bidder != 0 && t.auctions[id].bid != 0
    ensures var a := t.auctions[id];
            Finalize(t, id, now, true).Done? <==> Sellable(t, a)
  {
  }

  /** A sale moves the character and pays the seller the bid less the commission; nothing else changes. */
  lemma SaleEffect(t: Tables, id: AuctionId, now: nat)
    requires Expired(t, id, now) && t.auctions[id].bidder != 0 && t.auctions[id].bid != 0
    requires Finalize(t, id, now, true).Done?
    ensures var a, u := t.auctions[id], Finalize(t, id, now, true).store;
            && u.players == t.players[a.player := a.bidder] && t.players[a.player] == a.seller != a.bidder
            && u.accounts.Keys == t.accounts.Keys
            && (forall x | x in t.accounts :: u.accounts[x] == t.accounts[x] + if x == a.seller then Payout(a) else 0)
            && 0 <= Payout(a) <= a.bid && Payout(a) + Commission(a) == a.bid
            && u.auctions == t.auctions[id := a.(status := Finished, winner := a.bidder, finalPrice := a.bid)]
            && u.history == t.history + [History(id, FinishedSale, a.bidder, a.player, Payout(a))]
  {
  }

  // ---------------------------------------------------------------- creation

  predicate HasActive(t: Tables, account: AccountId, player: PlayerId) {
    exists id :: id in t.auctions && t.auctions[id].status == Active
                 && (t.auctions[id].seller == account || t.auctions[id].player == player)
  }

  /**
   * The transaction body of createAuction with the id the database gives out. readable: whether the two SELECTs that
   * look for an active auction succeed; one that fails is taken for an empty result.
   */
  function Create(t: Tables, account: AccountId, player: PlayerId, fee: nat, percent: nat, endAt: nat, id: AuctionId,
                  readable: bool): Effect<Tables>
  {
    if account !in t.accounts then Undone
    else if readable && HasActive(t, account, player) then Undone
    else
      match Debit(t, account, fee)
      case Undone => Undone
      case Done(u) =>
        if id == 0 || id in u.auctions then Undone
        else
          Done(u.(auctions := u.auctions[id := Auction(player, account, 0, 0, percent, Active, endAt, 0, 0)],
                  history := u.history + [History(id, Created, account, player, fee)]))
  }

  // ---------------------------------------------------------------- invariants

  function Sales(h: seq<History>, id: AuctionId): nat {
    if h == [] then 0
    else Sales(h[..|h| - 1], id) + if h[|h| - 1].auction == id && h[|h| - 1].action == FinishedSale then 1 else 0
  }

  predicate SaleOk(t: Tables, id: AuctionId) {
    Sales(t.history, id) == if id in t.auctions && t.auctions[id].status == Finished then 1 else 0
  }

  predicate ActiveApart(t: Tables, i: AuctionId, j: AuctionId) {
    i != j && i in t.auctions && j in t.auctions && t.auctions[i].status == Active && t.auctions[j].status == Active ==>
      t.auctions[i].seller != t.auctions[j].seller && t.auctions[i].player != t.auctions[j].player
  }

  ghost predicate Sound(t: Tables) {
    && (forall x | x in t.accounts :: t.accounts[x] <= MAX_TIBIA_COINS)
    && (forall i, j :: ActiveApart(t, i, j))
    && (forall id :: SaleOk(t, id))
  }

  lemma AppendHistory(h: seq<History>, e: History)
    ensures forall id :: Sales(h + [e], id) ==
                         Sales(h, id) + if e.auction == id && e.action == FinishedSale then 1 else 0
  {
    assert (h + [e])[..|h|] == h;
  }

  /** An active auction comes to an end, with a history entry of its own. */
  lemma EndingKeeps(t: Tables, u: Tables, id: AuctionId, ended: Auction, e: History)
    requires Sound(t) && id in t.auctions && t.auctions[id].status == Active && ended.status != Active
    requires u.auctions == t.auctions[id := ended] && u.history == t.history + [e]
    requires e.auction == id && (e.action == FinishedSale <==> ended.status == Finished)
    requires forall x | x in u.accounts :: u.accounts[x] <= MAX_TIBIA_COINS
    ensures Sound(u)
  {
    AppendHistory(t.history, e);
    forall other
      ensures SaleOk(u, other)
    {
      assert SaleOk(t, other);
    }
    forall i, j
      ensures ActiveApart(u, i, j)
    {
      assert ActiveApart(t, i, j);
    }
  }

  lemma FinalizeKeeps(t: Tables, id: AuctionId, now: nat, readable: bool)
    requires Sound(t) && Finalize(t, id, now, readable).Done?
    ensures Sound(Finalize(t, id, now, readable).store)
  {
    if readable && Expired(t, id, now) {
      var a, u := t.auctions[id], Finalize(t, id, now, readable).store;
      if a.bidder == 0 || a.bid == 0 {
        EndingKeeps(t, u, id, a.(status := Cancelled), History(id, ExpiredNoBid, a.seller, a.player, 0));
      } else {
        SaleEffect(t, id, now);
        SaleIsPossible(t, id, now);
        EndingKeeps(t, u, id, a.(status := Finished, winner := a.bidder, finalPrice := a.bid),
                    History(id, FinishedSale, a.bidder, a.player, Payout(a)));
      }
    }
  }

  lemma CreateKeeps(t: Tables, account: AccountId, player: PlayerId, fee: nat, percent: nat, endAt: nat, id: AuctionId)
    requires Sound(t) && Create(t, account, player, fee, percent, endAt, id, true).Done?
    ensures Sound(Create(t, account, player, fee, percent, endAt, id, true).store)
  {
    var u := Create(t, account, player, fee, percent, endAt, id, true).store;
    AppendHistory(t.history, u.history[|t.history|]);
    forall other
      ensures SaleOk(u, other)
    {
      assert SaleOk(t, other);
    }
    forall i, j
      ensures ActiveApart(u, i, j)
    {
      assert ActiveApart(t, i, j);
    }
  }

  /** Creation breaks the rule of one active auction exactly when it goes through unread while there is one. */
  lemma UnreadCreation(t: Tables, account: AccountId, player: PlayerId, fee: nat, percent: nat, endAt: nat,
                       id: AuctionId, readable: bool)
    requires Sound(t) && Create(t, account, player, fee, percent, endAt, id, readable).Done?
    ensures Sound(Create(t, account, player, fee, percent, endAt, id, readable).store) <==>
            (readable || !HasActive(t, account, player))
  {
    if !readable && HasActive(t, account, player) {
      var u := Create(t, account, player, fee, percent, endAt, id, readable).store;
      var other :| other in t.auctions && t.auctions[other].status == Active
                   && (t.auctions[other].seller == account || t.auctions[other].player == player);
      assert !ActiveApart(u, other, id);
    } else {
      assert Create(t, account, player, fee, percent, endAt, id, readable) ==
             Create(t, account, player, fee, percent, endAt, id, true);
      CreateKeeps(t, account, player, fee, percent, endAt, id);
    }
  }

  // ---------------------------------------------------------------- runs

  /** Transactions from here, and what happens outside: bids on active auctions and other changes of the tables. */
  datatype Step =
    | TryFinalize(id: AuctionId, now: nat, readable: bool, committed: bool)
    | TryCreate(account: AccountId, player: PlayerId, fee: nat, percent: nat, endAt: nat, id: AuctionId,
                readable: bool, committed: bool)
    | Bid(id: AuctionId, account: AccountId, amount: nat)
    | Balance(account: AccountId, coins: nat)
    | Own(player: PlayerId, account: AccountId)

  function OrElse(e: Effect<Tables>, committed: bool, t: Tables): Tables {
    if committed && e.Done? then e.store else t
  }

  function After(t: Tables, s: Step): Tables {
    match s
    case TryFinalize(id, now, readable, committed) => OrElse(Finalize(t, id, now, readable), committed, t)
    case TryCreate(account, player, fee, percent, endAt, id, readable, committed) =>
      OrElse(Create(t, account, player, fee, percent, endAt, id, readable), committed, t)
    case Bid(id, account, amount) =>
      if id in t.auctions && t.auctions[id].status == Active then
        t.(auctions := t.auctions[id := t.auctions[id].(bid := amount, bidder := account)])
      else t
    case Balance(account, coins) =>
      if coins <= MAX_TIBIA_COINS then t.(accounts := t.accounts[account := coins]) else t
    case Own(player, account) => t.(players := t.players[player := account])
  }

  function AfterAll(t: Tables, steps: seq<Step>): Tables
    decreases |steps|
  {
    if steps == [] then t else AfterAll(After(t, steps[0]), steps[1..])
  }

  /** Apart from an active auction nothing stands against the creation. */
  predicate MayCreate(t: Tables, account: AccountId, fee: nat, id: AuctionId) {
    account != 0 && account in t.accounts && t.accounts[account] >= fee && id != 0 && id !in t.auctions
  }

  lemma CreationIsPossible(t: Tables, account: AccountId, player: PlayerId, fee: nat, percent: nat, endAt: nat,
                           id: AuctionId, readable: bool)
    ensures Create(t, account, player, fee, percent, endAt, id, readable).Done? <==>
            MayCreate(t, account, fee, id) && !(readable && HasActive(t, account, player))
  {
  }

  /** A creation that is committed without having seen the active auctions is harmless when there are none. */
  predicate Harmless(t: Tables, s: Step) {
    s.TryCreate? && s.committed && !s.readable && MayCreate(t, s.account, s.fee, s.id) ==>
      !HasActive(t, s.account, s.player)
  }

  /** A step keeps the tables sound exactly when it is harmless; ended auctions stay as they are in any case. */
  lemma StepKeeps(t: Tables, s: Step)
    requires Sound(t)
    ensures Sound(After(t, s)) <==> Harmless(t, s)
    ensures EndedStay(t, After(t, s))
  {
    match s
    case TryFinalize(id, now, readable, _) =>
      if Finalize(t, id, now, readable).Done? {
        FinalizeKeeps(t, id, now, readable);
      }
    case TryCreate(account, player, fee, percent, endAt, id, readable, _) =>
      CreationIsPossible(t, account, player, fee, percent, endAt, id, readable);
      if Create(t, account, player, fee, percent, endAt, id, readable).Done? {
        UnreadCreation(t, account, player, fee, percent, endAt, id, readable);
      }
    case _ =>
      var u := After(t, s);
      forall id
        ensures SaleOk(u, id)
      {
        assert SaleOk(t, id);
      }
      forall i, j
        ensures ActiveApart(u, i, j)
      {
        assert ActiveApart(t, i, j);
      }
  }

  predicate EndedStay(t: Tables, u: Tables) {
    forall id | id in t.auctions && t.auctions[id].status != Active ::
      id in u.auctions && u.auctions[id] == t.auctions[id]
  }

  /** Sound at every moment of the run. */
  ghost predicate SoundThroughout(t: Tables, steps: seq<Step>)
    decreases |steps|
  {
    Sound(t) && (steps == [] || SoundThroughout(After(t, steps[0]), steps[1..]))
  }

  predicate HarmlessRun(t: Tables, steps: seq<Step>)
    decreases |steps|
  {
    steps == [] || (Harmless(t, steps[0]) && HarmlessRun(After(t, steps[0]), steps[1..]))
  }

  /**
   * Throughout a run balances stay within 32 bits, no account and no character has two active auctions, and each
   * auction is sold, and so paid out and its character moved, at most once - exactly when each step is harmless.
   */
  lemma {:induction false} RunKeeps(t: Tables, steps: seq<Step>)
    requires Sound(t)
    ensures SoundThroughout(t, steps) <==> HarmlessRun(t, steps)
    ensures HarmlessRun(t, steps) ==>
              && EndedStay(t, AfterAll(t, steps))
              && forall id :: Sales(t.history, id) <= Sales(AfterAll(t, steps).history, id) <= 1
    decreases |steps|
  {
    if steps == [] {
      forall id
        ensures Sales(t.history, id) <= 1
      {
        assert SaleOk(t, id);
      }
    } else {
      var u := After(t, steps[0]);
      StepKeeps(t, steps[0]);
      if Harmless(t, steps[0]) {
        RunKeeps(u, steps[1..]);
        forall id
          ensures Sales(t.history, id) <= Sales(u.history, id)
        {
          assert SaleOk(t, id) && SaleOk(u, id);
        }
      }
    }
  }

  // ---------------------------------------------------------------- when auctions end

  predicate ActiveIn(t: Tables, id: AuctionId) {
    id in t.auctions && t.auctions[id].status == Active
  }

  predicate HasBid(a: Auction) {
    a.bidder != 0 && a.bid != 0
  }

  /** The step is a finalisation of the auction that is committed, at or after its end, and not refused. */
  predicate Ends(t: Tables, s: Step, id: AuctionId)
    requires ActiveIn(t, id)
  {
    && s.TryFinalize? && s.id == id && s.committed && s.readable && t.auctions[id].endAt <= s.now
    && (HasBid(t.auctions[id]) ==> Sellable(t, t.auctions[id]))
  }

  /**
   * An active auction is active after a step exactly when the step does not end it. When it ends, it is sold if there
   * is a bid and cancelled otherwise; until then nothing but its bid changes.
   */
  lemma EndsExactlyWhen(t: Tables, s: Step, id: AuctionId)
    requires ActiveIn(t, id)
    ensures id in After(t, s).auctions
    ensures ActiveIn(After(t, s), id) <==> !Ends(t, s, id)
    ensures var a, b := t.auctions[id], After(t, s).auctions[id];
            if !Ends(t, s, id) then
              b == a.(bid := b.bid, bidder := b.bidder) && (b != a ==> s == Bid(id, b.bidder, b.bid))
            else if HasBid(a) then b == a.(status := Finished, winner := a.bidder, finalPrice := a.bid)
            else b == a.(status := Cancelled)
  {
    if s.TryFinalize? && s.id == id && Expired(t, id, s.now) && HasBid(t.auctions[id]) {
      SaleIsPossible(t, id, s.now);
    }
  }

  /** An auction stays active, with the same end, through every run that does not try to finalise it after its end. */
  lemma {:induction false} NeverEndsEarly(t: Tables, id: AuctionId, steps: seq<Step>)
    requires ActiveIn(t, id)
    requires forall s | s in steps && s.TryFinalize? && s.id == id :: s.now < t.auctions[id].endAt
    ensures ActiveIn(AfterAll(t, steps), id)
    ensures var a, b := t.auctions[id], AfterAll(t, steps).auctions[id]; b == a.(bid := b.bid, bidder := b.bidder)
    decreases |steps|
  {
    if steps == [] {
    } else {
      assert steps[0] in steps && forall s | s in steps[1..] :: s in steps;
      EndsExactlyWhen(t, steps[0], id);
      NeverEndsEarly(After(t, steps[0]), id, steps[1..]);
    }
  }

  /** A creation that goes through opens an auction without a bid, and takes the fee. */
  lemma CreationEffect(t: Tables, account: AccountId, player: PlayerId, fee: nat, percent: nat, endAt: nat,
                       id: AuctionId, readable: bool)
    requires Create(t, account, player, fee, percent, endAt, id, readable).Done?
    ensures var u := Create(t, account, player, fee, percent, endAt, id, readable).store;
            && ActiveIn(u, id) && id !in t.auctions && !HasBid(u.auctions[id])
            && (u.auctions[id].player, u.auctions[id].seller) == (player, account)
            && (u.auctions[id].endAt, u.auctions[id].commissionPercent) == (endAt, percent)
            && u.auctions == t.auctions[id := u.auctions[id]] && u.players == t.players
            && u.accounts.Keys == t.accounts.Keys && account in t.accounts
            && (forall x | x in t.accounts :: u.accounts[x] == t.accounts[x] - if x == account then fee else 0)
            && u.history == t.history + [History(id, Created, account, player, fee)]
  {
  }

  // ---------------------------------------------------------------- what the history says about coins and characters

  /** What one entry says an account was paid, or paid as a fee. */
  function NetOf(e: History, auctions: map<AuctionId, Auction>, account: AccountId): int {
    if e.action == FinishedSale && e.auction in auctions && auctions[e.auction].seller == account then e.amount
    else if e.action == Created && e.account == account then 0 - e.amount
    else 0
  }

  function Net(h: seq<History>, auctions: map<AuctionId, Auction>, account: AccountId): int {
    if h == [] then 0 else Net(h[..|h| - 1], auctions, account) + NetOf(h[|h| - 1], auctions, account)
  }

  function Coins(t: Tables, account: AccountId): nat {
    if account in t.accounts then t.accounts[account] else 0
  }

  function Owner(t: Tables, player: PlayerId): Option<AccountId> {
    if player in t.players then Some(t.players[player]) else None
  }

  /** The buyer of the last sale of a character in a history, or its owner before. */
  function LastBuyer(owner: Option<AccountId>, h: seq<History>, player: PlayerId): Option<AccountId> {
    if h == [] then owner else
      var last := h[|h| - 1];
      if last.action == FinishedSale && last.player == player then Some(last.account)
      else LastBuyer(owner, h[..|h| - 1], player)
  }

  /** Entries speak of auctions there are. */
  predicate Recorded(t: Tables) {
    forall e | e in t.history :: e.auction in t.auctions
  }

  /** No auction changes hands. */
  predicate SellersStay(t: Tables, u: Tables) {
    forall id | id in t.auctions :: id in u.auctions && u.auctions[id].seller == t.auctions[id].seller
  }

  lemma {:induction false} NetStays(h: seq<History>, t: Tables, u: Tables, account: AccountId)
    requires SellersStay(t, u) && forall e | e in h :: e.auction in t.auctions
    ensures Net(h, u.auctions, account) == Net(h, t.auctions, account)
  {
    if h == [] {
    } else {
      assert h[|h| - 1] in h;
      NetStays(h[..|h| - 1], t, u, account);
    }
  }

  lemma {:induction false} LastBuyerOfBoth(owner: Option<AccountId>, g: seq<History>, h: seq<History>, player: PlayerId)
    ensures LastBuyer(owner, g + h, player) == LastBuyer(LastBuyer(owner, g, player), h, player)
  {
    if h == [] {
      assert g + h == g;
    } else {
      assert (g + h)[..|g + h| - 1] == g + h[..|h| - 1];
      LastBuyerOfBoth(owner, g, h[..|h| - 1], player);
    }
  }

  /**
   * The balance of the account has changed by what the new entries of the history say and by outside; the character
   * belongs to the buyer of its last sale, unless it has been taken from outside.
   */
  ghost predicate Booked(t: Tables, u: Tables, account: AccountId, player: PlayerId, outside: int, taken: bool) {
    && Recorded(u) && SellersStay(t, u) && t.history <= u.history
    && Coins(u, account) - Net(u.history, u.auctions, account) ==
       Coins(t, account) - Net(t.history, t.auctions, account) + outside
    && (taken || Owner(u, player) == LastBuyer(Owner(t, player), u.history[|t.history|..], player))
  }

  lemma BookedLater(t: Tables, u: Tables, v: Tables, account: AccountId, player: PlayerId, first: int, second: int,
                    takenFirst: bool, takenSecond: bool)
    requires Booked(t, u, account, player, first, takenFirst) && Booked(u, v, account, player, second, takenSecond)
    ensures Booked(t, v, account, player, first + second, takenFirst || takenSecond)
  {
    var g, h := u.history[|t.history|..], v.history[|u.history|..];
    assert v.history[|t.history|..] == g + h;
    LastBuyerOfBoth(Owner(t, player), g, h, player);
  }

  /** A transaction adds one entry, or none. */
  lemma OneEntryBooked(t: Tables, u: Tables, e: History, account: AccountId, player: PlayerId)
    requires Recorded(t) && SellersStay(t, u) && u.history == t.history + [e] && e.auction in u.auctions
    requires Coins(u, account) == Coins(t, account) + NetOf(e, u.auctions, account)
    requires Owner(u, player) == if e.action == FinishedSale && e.player == player then Some(e.account)
                                 else Owner(t, player)
    ensures Booked(t, u, account, player, 0, false)
  {
    assert u.history[..|t.history|] == t.history && u.history[|t.history|..] == [e];
    assert LastBuyer(Owner(t, player), [e][..0], player) == Owner(t, player);
    NetStays(t.history, t, u, account);
  }

  lemma NothingBooked(t: Tables, u: Tables, account: AccountId, player: PlayerId, taken: bool)
    requires Recorded(t) && SellersStay(t, u) && u.history == t.history
    requires taken || Owner(u, player) == Owner(t, player)
    ensures Booked(t, u, account, player, Coins(u, account) - Coins(t, account), taken)
  {
    assert u.history[|t.history|..] == [];
    NetStays(t.history, t, u, account);
  }

  /** What a step changes the balance by that is no business of the auctions. */
  function Outside(t: Tables, s: Step, account: AccountId): int {
    if s.Balance? && s.account == account && s.coins <= MAX_TIBIA_COINS then s.coins - Coins(t, account) else 0
  }

  predicate Takes(s: Step, player: PlayerId) {
    s.Own? && s.player == player
  }

  lemma StepIsBooked(t: Tables, s: Step, account: AccountId, player: PlayerId)
    requires Recorded(t)
    ensures Booked(t, After(t, s), account, player, Outside(t, s, account), Takes(s, player))
  {
    match s
    case TryFinalize(id, now, readable, committed) =>
      if committed && Finalize(t, id, now, readable).Done? {
        FinalizeIsBooked(t, id, now, readable, account, player);
      } else {
        NothingBooked(t, t, account, player, false);
      }
    case TryCreate(seller, sold, fee, percent, endAt, id, readable, committed) =>
      if committed && Create(t, seller, sold, fee, percent, endAt, id, readable).Done? {
        var u := Create(t, seller, sold, fee, percent, endAt, id, readable).store;
        OneEntryBooked(t, u, History(id, Created, seller, sold, fee), account, player);
      } else {
        NothingBooked(t, t, account, player, false);
      }
    case _ => NothingBooked(t, After(t, s), account, player, Takes(s, player));
  }

  lemma FinalizeIsBooked(t: Tables, id: AuctionId, now: nat, readable: bool, account: AccountId, player: PlayerId)
    requires Recorded(t) && Finalize(t, id, now, readable).Done?
    ensures Booked(t, Finalize(t, id, now, readable).store, account, player, 0, false)
  {
    var u := Finalize(t, id, now, readable).store;
    if readable && Expired(t, id, now) {
      var a := t.auctions[id];
      if a.bidder == 0 || a.bid == 0 {
        OneEntryBooked(t, u, History(id, ExpiredNoBid, a.seller, a.player, 0), account, player);
      } else {
        SaleEffect(t, id, now);
        SaleIsPossible(t, id, now);
        OneEntryBooked(t, u, History(id, FinishedSale, a.bidder, a.player, Payout(a)), account, player);
      }
    } else {
      NothingBooked(t, u, account, player, false);
    }
  }

  function OutsideAll(t: Tables, steps: seq<Step>, account: AccountId): int
    decreases |steps|
  {
    if steps == [] then 0
    else Outside(t, steps[0], account) + OutsideAll(After(t, steps[0]), steps[1..], account)
  }

  predicate TakesAny(steps: seq<Step>, player: PlayerId)
    decreases |steps|
  {
    steps != [] && (Takes(steps[0], player) || TakesAny(steps[1..], player))
  }

  /**
   * In every run each account ends with what it had, plus the payouts less the fees the history lists for it, plus what
   * came from outside; and each character that is not taken from outside belongs to the buyer of its last sale.
   */
  lemma {:induction false} RunIsBooked(t: Tables, steps: seq<Step>, account: AccountId, player: PlayerId)
    requires Recorded(t)
    ensures Booked(t, AfterAll(t, steps), account, player, OutsideAll(t, steps, account), TakesAny(steps, player))
    decreases |steps|
  {
    if steps == [] {
      NothingBooked(t, t, account, player, false);
    } else {
      var u := After(t, steps[0]);
      StepIsBooked(t, steps[0], account, player);
      RunIsBooked(u, steps[1..], account, player);
      BookedLater(t, u, AfterAll(u, steps[1..]), account, player, Outside(t, steps[0], account),
                  OutsideAll(u, steps[1..], account), Takes(steps[0], player), TakesAny(steps[1..], player));
    }
  }

  // ---------------------------------------------------------------- the wrapper

  /** The bodies as the wrapper runs them; each attempt has its own luck with the queries. */
  function FinalizeBody(id: AuctionId, now: nat, readable: nat -> bool): (nat, Tables) -> Effect<Tables> {
    (attempt: nat, t: Tables) => Finalize(t, id, now, readable(attempt))
  }

  function CreateBody(account: AccountId, player: PlayerId, fee: nat, percent: nat, endAt: nat, id: AuctionId,
                      readable: nat -> bool): (nat, Tables) -> Effect<Tables>
  {
    (attempt: nat, t: Tables) => Create(t, account, player, fee, percent, endAt, id, readable(attempt))
  }

  /** However often the transaction wrapper runs the body of finalizeAuction, it comes to one step, or to nothing. */
  lemma FinalizeIsOneStep(w: World<Tables>, t: Tables, id: AuctionId, now: nat, readable: nat -> bool)
    requires Performs(w, FinalizeBody(id, now, readable))
    ensures var o := Execute(w, t, 1);
            && o.last >= 1
            && var found := Found(w, t, 1, o.last);
               && o.store == After(found, TryFinalize(id, now, readable(o.last), o.ok))
               && (o.ok ==> Finalize(found, id, now, readable(o.last)) == Done(o.store))
  {
    BlockOrNothing(w, FinalizeBody(id, now, readable), t);
  }

  lemma CreateIsOneStep(w: World<Tables>, t: Tables, account: AccountId, player: PlayerId, fee: nat, percent: nat,
                        endAt: nat, id: AuctionId, readable: nat -> bool)
    requires Performs(w, CreateBody(account, player, fee, percent, endAt, id, readable))
    ensures var o := Execute(w, t, 1);
            && o.last >= 1
            && var found := Found(w, t, 1, o.last);
               && o.store == After(found, TryCreate(account, player, fee, percent, endAt, id, readable(o.last), o.ok))
               && (o.ok ==>
                     Create(found, account, player, fee, percent, endAt, id, readable(o.last)) == Done(o.store))
  {
    BlockOrNothing(w, CreateBody(account, player, fee, percent, endAt, id, readable), t);
  }

  /** An auction whose seller holds the highest bid is never finalised, however often that is tried. */
  lemma {:induction false} OwnBidIsStuck(t: Tables, id: AuctionId, steps: seq<Step>)
    requires id in t.auctions && t.auctions[id].status == Active
    requires t.auctions[id].bidder == t.auctions[id].seller != 0 && t.auctions[id].bid != 0
    requires forall s | s in steps :: !(s.Bid? && s.id == id)
    ensures id in AfterAll(t, steps).auctions && AfterAll(t, steps).auctions[id] == t.auctions[id]
    decreases |steps|
  {
    if steps == [] {
    } else {
      assert steps[0] in steps && forall s | s in steps[1..] :: s in steps;
      var u := After(t, steps[0]);
      assert u.auctions[id] == t.auctions[id];
      OwnBidIsStuck(u, id, steps[1..]);
    }
  }

  // ---------------------------------------------------------------- inside the transactions

  /** The tables as an open transaction sees them, changed one statement at a time. */
  class Session {
    var t: Tables

    constructor (t: Tables)
      ensures this.t == t
    {
      this.t := t;
    }

    method DebitTransferableCoins(account: AccountId, amount: nat) returns (ok: bool)
      modifies this
      ensures if ok then Debit(old(t), account, amount) == Done(t)
              else Debit(old(t), account, amount) == Undone && t == old(t)
    {
      if account == 0 {
        return false;
      }
      if amount == 0 {
        return true;
      }
      var affected := 0;
      if account in t.accounts && t.accounts[account] >= amount {
        t := t.(accounts := t.accounts[account := t.accounts[account] - amount]);
        affected := 1;
      }
      ok := affected == 1;
    }

    method CreditTransferableCoins(account: AccountId, amount: nat) returns (ok: bool)
      modifies this
      ensures if ok then Credit(old(t), account, amount) == Done(t)
              else Credit(old(t), account, amount) == Undone && t == old(t)
    {
      if account == 0 {
        return false;
      }
      if amount == 0 {
        return true;
      }
      if amount > MAX_TIBIA_COINS {
        return false;
      }
      var affected := 0;
      if account in t.accounts && t.accounts[account] <= MAX_TIBIA_COINS - amount {
        t := t.(accounts := t.accounts[account := t.accounts[account] + amount]);
        affected := 1;
      }
      ok := affected == 1;
    }

    method AddHistory(entry: History)
      modifies this
      ensures t == old(t).(history := old(t.history) + [entry])
    {
      t := t.(history := t.history + [entry]);
    }

    /** What a refused body leaves behind is rolled back. */
    method FinalizeAuction(id: AuctionId, now: nat, readable: bool) returns (ok: bool)
      modifies this
      ensures Finalize(old(t), id, now, readable) == if ok then Done(t) else Undone
    {
      if !(readable && id in t.auctions && t.auctions[id].status == Active && t.auctions[id].endAt <= now) {
        return true;
      }
      var a := t.auctions[id];
      if a.bidder == 0 || a.bid == 0 {
        t := t.(auctions := t.auctions[id := a.(status := Cancelled)]);
        AddHistory(History(id, ExpiredNoBid, a.seller, a.player, 0));
        return true;
      }
      var percent := if a.commissionPercent < 100 then a.commissionPercent else 100;
      var commission := a.bid * percent / 100;
      var sellerPayout := a.bid - commission;
      var affected := 0;
      if a.player in t.players && t.players[a.player] == a.seller {
        affected := if t.players[a.player] == a.bidder then 0 else 1;
        t := t.(players := t.players[a.player := a.bidder]);
      }
      if affected != 1 {
        return false;
      }
      assert commission == Commission(a);
      ok := CreditTransferableCoins(a.seller, sellerPayout);
      if !ok {
        return false;
      }
      t := t.(auctions := t.auctions[id := a.(status := Finished, winner := a.bidder, finalPrice := a.bid)]);
      AddHistory(History(id, FinishedSale, a.bidder, a.player, sellerPayout));
    }

    /** The body of createAuction; insertedId is the id the database gives out. */
    method CreateAuction(account: AccountId, player: PlayerId, fee: nat, percent: nat, endAt: nat,
                         insertedId: AuctionId, readable: bool) returns (ok: bool)
      modifies this
      ensures Create(old(t), account, player, fee, percent, endAt, insertedId, readable) ==
              if ok then Done(t) else Undone
    {
      if account !in t.accounts {
        return false;
      }
      var found := readable && HasActive(t, account, player);
      if found {
        return false;
      }
      ok := DebitTransferableCoins(account, fee);
      if !ok {
        return false;
      }
      if insertedId == 0 || insertedId in t.auctions {
        return false;
      }
      t := t.(auctions := t.auctions[insertedId := Auction(player, account, 0, 0, percent, Active, endAt, 0, 0)]);
      AddHistory(History(insertedId, Created, account, player, fee));
    }
  }
}

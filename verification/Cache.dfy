/**
  The symbol cache as the network thread uses it: each update a begin-write, a few stores and an end-write.
 */
module Cache {
  import opened Bytes
  import opened Market

  const MAX_SYMBOLS: nat := 500

  datatype Entry = Entry(version: u32, fields: MarketState)

  /** The entry one complete update leaves behind. */
  function Committed(e: Entry, u: Update): Entry {
    Entry(Bump32(Bump32(e.version)), Updated(e.fields, u))
  }

  class SymbolCache {
    const states: array<Entry>

    ghost predicate Valid() {
      states.Length == MAX_SYMBOLS
    }

    constructor ()
      ensures Valid() && fresh(states)
      ensures forall i :: 0 <= i < MAX_SYMBOLS ==> states[i] == Entry(0, Blank)
    {
      states := new Entry[MAX_SYMBOLS](_ => Entry(0, Blank));
    }

    method BumpVersion(sym: u16)
      requires Valid() && sym < MAX_SYMBOLS
      modifies states
      ensures states[..] == old(states[..])[sym := old(states[sym]).(version := Bump32(old(states[sym].version)))]
    {
      states[sym] := states[sym].(version := Bump32(states[sym].version));
    }

    method SetFields(sym: u16, f: MarketState)
      requires Valid() && sym < MAX_SYMBOLS
      modifies states
      ensures states[..] == old(states[..])[sym := old(states[sym]).(fields := f)]
    {
      states[sym] := states[sym].(fields := f);
    }

    method UpdateBid(sym: u16, price: u64, qty: u32, ts: u64)
      requires Valid() && sym < MAX_SYMBOLS
      modifies states
      ensures states[..] == old(states[..])[sym := Committed(old(states[sym]), BidUpdate(price, qty, ts))]
      ensures states[sym].fields == old(states[sym].fields).(bestBid := price, bidQty := qty, lastTime := ts,
                                                             updates := Bump64(old(states[sym].fields.updates)))
    {
      BumpVersion(sym);
      SetFields(sym, states[sym].fields.(bestBid := price));
      SetFields(sym, states[sym].fields.(bidQty := qty));
      SetFields(sym, states[sym].fields.(lastTime := ts));
      SetFields(sym, states[sym].fields.(updates := Bump64(states[sym].fields.updates)));
      BumpVersion(sym);
    }

    method UpdateAsk(sym: u16, price: u64, qty: u32, ts: u64)
      requires Valid() && sym < MAX_SYMBOLS
      modifies states
      ensures states[..] == old(states[..])[sym := Committed(old(states[sym]), AskUpdate(price, qty, ts))]
      ensures states[sym].fields == old(states[sym].fields).(bestAsk := price, askQty := qty, lastTime := ts,
                                                             updates := Bump64(old(states[sym].fields.updates)))
    {
      BumpVersion(sym);
      SetFields(sym, states[sym].fields.(bestAsk := price));
      SetFields(sym, states[sym].fields.(askQty := qty));
      SetFields(sym, states[sym].fields.(lastTime := ts));
      SetFields(sym, states[sym].fields.(updates := Bump64(states[sym].fields.updates)));
      BumpVersion(sym);
    }

    method UpdateQuote(sym: u16, bid: u64, bidQty: u32, ask: u64, askQty: u32, ts: u64)
      requires Valid() && sym < MAX_SYMBOLS
      modifies states
      ensures var u := QuoteUpdate(bid, bidQty, ask, askQty, ts);
              states[..] == old(states[..])[sym := Committed(old(states[sym]), u)]
      ensures states[sym].fields == old(states[sym].fields).(bestBid := bid, bidQty := bidQty, bestAsk := ask,
                                                             askQty := askQty, lastTime := ts,
                                                             updates := Bump64(old(states[sym].fields.updates)))
    {
      BumpVersion(sym);
      SetFields(sym, states[sym].fields.(bestBid := bid));
      SetFields(sym, states[sym].fields.(bidQty := bidQty));
      SetFields(sym, states[sym].fields.(bestAsk := ask));
      SetFields(sym, states[sym].fields.(askQty := askQty));
      SetFields(sym, states[sym].fields.(lastTime := ts));
      SetFields(sym, states[sym].fields.(updates := Bump64(states[sym].fields.updates)));
      BumpVersion(sym);
    }

    method UpdateTrade(sym: u16, price: u64, qty: u32, ts: u64)
      requires Valid() && sym < MAX_SYMBOLS
      modifies states
      ensures states[..] == old(states[..])[sym := Committed(old(states[sym]), TradeUpdate(price, qty, ts))]
      ensures states[sym].fields == old(states[sym].fields).(lastPrice := price, lastQty := qty, lastTime := ts,
                                                             updates := Bump64(old(states[sym].fields.updates)))
    {
      BumpVersion(sym);
      SetFields(sym, states[sym].fields.(lastPrice := price));
      SetFields(sym, states[sym].fields.(lastQty := qty));
      SetFields(sym, states[sym].fields.(lastTime := ts));
      SetFields(sym, states[sym].fields.(updates := Bump64(states[sym].fields.updates)));
      BumpVersion(sym);
    }

    /** With no write in progress the snapshot is the entry. */
    method GetSnapshot(sym: u16) returns (snap: Entry)
      requires Valid() && sym < MAX_SYMBOLS && states[sym].version % 2 == 0
      ensures snap == states[sym]
    {
      snap := Entry(0, Blank);
      var v1, v2: u32 := 0, 0;
      var again := true;
      while again
        invariant again || snap == states[sym]
        decreases again
      {
        v1 := states[sym].version;
        if v1 % 2 == 0 {
          snap := states[sym];
          v2 := states[sym].version;
        }
        again := v1 != v2;
      }
    }
  }

  // ----- many updates of one symbol

  function Fold(us: seq<Update>): MarketState {
    if us == [] then Blank else Updated(Fold(us[..|us| - 1]), us[|us| - 1])
  }

  predicate IsKind(u: Update, trade: bool) {
    if trade then u.TradeUpdate? else u.QuoteUpdate?
  }

  /** One past the index of the last trade, or of the last quote; zero when there is none. */
  function LastOf(us: seq<Update>, trade: bool): (n: nat)
    ensures n <= |us|
    ensures n > 0 ==> IsKind(us[n - 1], trade)
    ensures forall i :: n <= i < |us| ==> !IsKind(us[i], trade)
  {
    if us == [] then 0 else if IsKind(us[|us| - 1], trade) then |us| else LastOf(us[..|us| - 1], trade)
  }

  ghost predicate QuotesAndTrades(us: seq<Update>) {
    forall i :: 0 <= i < |us| ==> us[i].QuoteUpdate? || us[i].TradeUpdate?
  }

  lemma {:induction false} FoldQuote(us: seq<Update>)
    requires QuotesAndTrades(us)
    ensures var s, q := Fold(us), LastOf(us, false);
            && (q == 0 ==> s.bestBid == 0 && s.bidQty == 0 && s.bestAsk == 0 && s.askQty == 0)
            && (q > 0 ==> var u := us[q - 1];
                          s.bestBid == u.bid && s.bidQty == u.bidQty && s.bestAsk == u.ask && s.askQty == u.askQty)
  {
    hide Bump64;
    if us != [] { FoldQuote(us[..|us| - 1]); }
  }

  lemma {:induction false} FoldTrade(us: seq<Update>)
    requires QuotesAndTrades(us)
    ensures var s, t := Fold(us), LastOf(us, true);
            && (t == 0 ==> s.lastPrice == 0 && s.lastQty == 0)
            && (t > 0 ==> s.lastPrice == us[t - 1].price && s.lastQty == us[t - 1].qty)
  {
    hide Bump64;
    if us != [] { FoldTrade(us[..|us| - 1]); }
  }

  lemma {:induction false} FoldCounts(us: seq<Update>)
    ensures var s := Fold(us);
            (us != [] ==> s.lastTime == us[|us| - 1].ts) && s.updates == |us| % TWO_64
  {
    if us != [] { FoldCounts(us[..|us| - 1]); }
  }

  /** The entry after these updates, starting from a fresh cache. */
  function EntryAfter(us: seq<Update>): Entry {
    Entry(2 * |us| % TWO_32, Fold(us))
  }

  /** The entry shows the last quote, the last trade, the last timestamp, how many there were, and twice that as
      version. */
  ghost predicate ShowsLatest(e: Entry, us: seq<Update>) {
    var s, q, t := e.fields, LastOf(us, false), LastOf(us, true);
    && e.version == 2 * |us| % TWO_32
    && (q == 0 ==> s.bestBid == 0 && s.bidQty == 0 && s.bestAsk == 0 && s.askQty == 0)
    && (q > 0 ==> var u := us[q - 1];
                  s.bestBid == u.bid && s.bidQty == u.bidQty && s.bestAsk == u.ask && s.askQty == u.askQty)
    && (t == 0 ==> s.lastPrice == 0 && s.lastQty == 0)
    && (t > 0 ==> s.lastPrice == us[t - 1].price && s.lastQty == us[t - 1].qty)
    && (us != [] ==> s.lastTime == us[|us| - 1].ts)
    && s.updates == |us| % TWO_64
  }

  /** After quotes and trades the entry shows the latest of each. */
  lemma FoldMeans(us: seq<Update>)
    requires QuotesAndTrades(us)
    ensures ShowsLatest(EntryAfter(us), us)
  {
    FoldQuote(us);
    FoldTrade(us);
    FoldCounts(us);
  }

  lemma TwoBumps(n: nat)
    ensures Bump32(Bump32(2 * n % TWO_32)) == 2 * (n + 1) % TWO_32
  {
  }

  lemma EntryOneMore(us: seq<Update>, u: Update)
    ensures EntryAfter(us + [u]) == Committed(EntryAfter(us), u)
  {
    hide Updated, Bump32;
    assert (us + [u])[..|us + [u]| - 1] == us;
    TwoBumps(|us|);
  }
}

/**
  The cached state of one symbol and the effect of one update on it.
 */
module Market {
  import opened Bytes

  /** The fields of a cache entry other than its version. Prices are 64-bit patterns. */
  datatype MarketState = MarketState(
    bestBid: u64, bestAsk: u64, bidQty: u32, askQty: u32,
    lastPrice: u64, lastQty: u32, lastTime: u64, updates: u64)

  const Blank := MarketState(0, 0, 0, 0, 0, 0, 0, 0)

  datatype Update =
    | BidUpdate(price: u64, qty: u32, ts: u64)
    | AskUpdate(price: u64, qty: u32, ts: u64)
    | QuoteUpdate(bid: u64, bidQty: u32, ask: u64, askQty: u32, ts: u64)
    | TradeUpdate(price: u64, qty: u32, ts: u64)

  function Bump64(n: u64): u64 {
    (n as nat + 1) % TWO_64
  }

  function Bump32(n: u32): u32 {
    (n as nat + 1) % TWO_32
  }

  /** The state one update leaves behind. */
  function Updated(s: MarketState, u: Update): MarketState {
    var t := s.(lastTime := u.ts, updates := Bump64(s.updates));
    match u
    case BidUpdate(price, qty, _) => t.(bestBid := price, bidQty := qty)
    case AskUpdate(price, qty, _) => t.(bestAsk := price, askQty := qty)
    case QuoteUpdate(bid, bidQty, ask, askQty, _) =>
      t.(bestBid := bid, bidQty := bidQty, bestAsk := ask, askQty := askQty)
    case TradeUpdate(price, qty, _) => t.(lastPrice := price, lastQty := qty)
  }

  // ----- the same entry as the memory words that stores and copies touch one at a time

  const FIELDS: nat := 8

  /** The words of an entry in the order in which an assignment copies them. */
  function Words(s: MarketState): (w: seq<u64>)
    ensures |w| == FIELDS
  {
    [s.bestBid, s.bestAsk, s.bidQty, s.askQty, s.lastPrice, s.lastQty, s.lastTime, s.updates]
  }

  datatype Store = Store(field: nat, value: u64)

  /** The stores of one update, in program order. The single writer knows the counter it increments. */
  function Stores(s: MarketState, u: Update): seq<Store> {
    var last := [Store(6, u.ts), Store(7, Bump64(s.updates))];
    match u
    case BidUpdate(price, qty, _) => [Store(0, price), Store(2, qty)] + last
    case AskUpdate(price, qty, _) => [Store(1, price), Store(3, qty)] + last
    case QuoteUpdate(bid, bidQty, ask, askQty, _) =>
      [Store(0, bid), Store(2, bidQty), Store(1, ask), Store(3, askQty)] + last
    case TradeUpdate(price, qty, _) => [Store(4, price), Store(5, qty)] + last
  }

  /** Every store hits a field, and no field twice. */
  ghost predicate WellFormed(todo: seq<Store>) {
    && (forall i :: 0 <= i < |todo| ==> todo[i].field < FIELDS)
    && (forall i, j :: 0 <= i < j < |todo| ==> todo[i].field != todo[j].field)
  }

  function Performed(mem: seq<u64>, todo: seq<Store>): (m: seq<u64>)
    requires |mem| == FIELDS && forall i :: 0 <= i < |todo| ==> todo[i].field < FIELDS
    ensures |m| == FIELDS
    decreases |todo|
  {
    if todo == [] then mem else Performed(mem[todo[0].field := todo[0].value], todo[1..])
  }

  /** A field ends up with the value stored to it, or keeps the one it had. */
  lemma {:induction false} PerformedAt(mem: seq<u64>, todo: seq<Store>, f: nat)
    requires |mem| == FIELDS && WellFormed(todo) && f < FIELDS
    ensures forall i :: 0 <= i < |todo| && todo[i].field == f ==> Performed(mem, todo)[f] == todo[i].value
    ensures (forall i :: 0 <= i < |todo| ==> todo[i].field != f) ==> Performed(mem, todo)[f] == mem[f]
    decreases |todo|
  {
    if todo != [] {
      var tail := todo[1..];
      PerformedAt(mem[todo[0].field := todo[0].value], tail, f);
      forall i | 0 <= i < |todo| && todo[i].field == f ensures Performed(mem, todo)[f] == todo[i].value {
        if i > 0 {
          assert tail[i - 1] == todo[i];
        } else {
          assert forall j :: 0 <= j < |tail| ==> tail[j].field != f;
        }
      }
    }
  }

  lemma OneStore(mem: seq<u64>, x: Store, rest: seq<Store>)
    requires |mem| == FIELDS && x.field < FIELDS
    requires forall i :: 0 <= i < |rest| ==> rest[i].field < FIELDS
    ensures Performed(mem, [x] + rest) == Performed(mem[x.field := x.value], rest)
  {
    assert ([x] + rest)[1..] == rest;
  }

  lemma FourStores(mem: seq<u64>, a: Store, b: Store, c: Store, d: Store)
    requires |mem| == FIELDS && a.field < FIELDS && b.field < FIELDS && c.field < FIELDS && d.field < FIELDS
    ensures Performed(mem, [a, b, c, d])
         == mem[a.field := a.value][b.field := b.value][c.field := c.value][d.field := d.value]
  {
    var m1 := mem[a.field := a.value];
    var m2 := m1[b.field := b.value];
    var m3 := m2[c.field := c.value];
    hide Performed;
    assert [a, b, c, d] == [a] + [b, c, d] && [b, c, d] == [b] + [c, d] && [c, d] == [c] + [d] && [d] == [d] + [];
    OneStore(mem, a, [b, c, d]);
    OneStore(m1, b, [c, d]);
    OneStore(m2, c, [d]);
    OneStore(m3, d, []);
    NoStore(m3[d.field := d.value]);
  }

  lemma SixStores(mem: seq<u64>, a: Store, b: Store, c: Store, d: Store, x: Store, y: Store)
    requires |mem| == FIELDS && a.field < FIELDS && b.field < FIELDS
    requires c.field < FIELDS && d.field < FIELDS && x.field < FIELDS && y.field < FIELDS
    ensures Performed(mem, [a, b, c, d, x, y])
         == mem[a.field := a.value][b.field := b.value][c.field := c.value][d.field := d.value]
               [x.field := x.value][y.field := y.value]
  {
    hide Performed;
    var rest, last := [b, c, d, x, y], [c, d, x, y];
    assert [a, b, c, d, x, y] == [a] + rest && rest == [b] + last;
    OneStore(mem, a, rest);
    OneStore(mem[a.field := a.value], b, last);
    FourStores(mem[a.field := a.value][b.field := b.value], c, d, x, y);
  }

  lemma NoStore(mem: seq<u64>)
    requires |mem| == FIELDS
    ensures Performed(mem, []) == mem
  {
  }

  /** The individual stores add up to the update. */
  lemma StoresMakeUpdate(s: MarketState, u: Update)
    ensures WellFormed(Stores(s, u))
    ensures Performed(Words(s), Stores(s, u)) == Words(Updated(s, u))
  {
    hide Performed;
    var w, x, y := Words(s), Store(6, u.ts), Store(7, Bump64(s.updates));
    match u
    case BidUpdate(price, qty, _) =>
      FourStores(w, Store(0, price), Store(2, qty), x, y);
      assert Stores(s, u) == [Store(0, price), Store(2, qty), x, y];
    case AskUpdate(price, qty, _) =>
      FourStores(w, Store(1, price), Store(3, qty), x, y);
      assert Stores(s, u) == [Store(1, price), Store(3, qty), x, y];
    case TradeUpdate(price, qty, _) =>
      FourStores(w, Store(4, price), Store(5, qty), x, y);
      assert Stores(s, u) == [Store(4, price), Store(5, qty), x, y];
    case QuoteUpdate(bid, bidQty, ask, askQty, _) =>
      SixStores(w, Store(0, bid), Store(2, bidQty), Store(1, ask), Store(3, askQty), x, y);
      assert Stores(s, u) == [Store(0, bid), Store(2, bidQty), Store(1, ask), Store(3, askQty), x, y];
  }
}

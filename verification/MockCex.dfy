/** The in-memory order-book venue: fills against a fixed mid with a spread and a fee, over exact reals. */
module MockCex {
  import opened Common

  datatype Side = Buy | Sell

  datatype Book = Book(mid: real, spreadBps: real)

  /** Books in the order they were configured, under their `BASE/QUOTE` keys. */
  datatype Listing = Listing(key: string, book: Book)

  datatype Order = Order(base: string, quote: string, side: Side, sizeIn: real)

  datatype Fill = Fill(
    intentId: string, side: Side, base: string, quote: string, filledSize: real, avgPrice: real, feePaid: real)

  datatype Quote = Quote(sizeIn: real, sizeOut: real, price: real, feeBps: real, expectedSlippageBps: real)

  datatype Failure = MissingStep | UnsupportedPair

  datatype Venue = Venue(feeBps: real, books: seq<Listing>, balances: map<string, real>, fills: seq<Fill>)

  // ---------- books ----------

  function PairKey(base: string, quote: string): string {
    base + "/" + quote
  }

  function FindBook(books: seq<Listing>, key: string): Option<Book> {
    if books == [] then None
    else if books[0].key == key then Some(books[0].book)
    else FindBook(books[1..], key)
  }

  /** The part of a text up to its first slash, and what follows it when there is one. */
  function Cut(text: string): (string, Option<string>) {
    if text == "" then ("", None)
    else if text[0] == '/' then ("", Some(text[1..]))
    else var rest := Cut(text[1..]); ([text[0]] + rest.0, rest.1)
  }

  /** Without a step the first book is bought with one unit; a key without a slash names the quote `undefined`. */
  function FallbackOrder(books: seq<Listing>): Option<Order> {
    if books == [] || books[0].key == "" then None
    else
      var first := Cut(books[0].key);
      Some(Order(first.0, if first.1.Some? then Cut(first.1.value).0 else "undefined", Buy, 1.0))
  }

  /** Positive mids, and spreads and fees between nothing and everything. */
  ghost predicate Sound(feeBps: real, books: seq<Listing>) {
    0.0 <= feeBps <= 10_000.0 && forall l :: l in books ==> l.book.mid > 0.0 && 0.0 <= l.book.spreadBps <= 10_000.0
  }

  lemma {:induction false} FoundIsListed(books: seq<Listing>, key: string)
    ensures FindBook(books, key).Some? ==> Listing(key, FindBook(books, key).value) in books
  {
    if books != [] { FoundIsListed(books[1..], key); }
  }

  // ---------- quoting and filling ----------

  function Price(book: Book, side: Side): real {
    var halfSpread := book.spreadBps / 10_000.0;
    if side == Buy then book.mid * (1.0 + halfSpread) else book.mid * (1.0 - halfSpread)
  }

  /** A purchase divides by the price; at a price of zero there is no finite result. */
  predicate HasFiniteFill(book: Book, side: Side) {
    side == Buy ==> Price(book, Buy) != 0.0
  }

  function GrossOut(book: Book, side: Side, sizeIn: real): real
    requires HasFiniteFill(book, side)
  {
    if side == Buy then sizeIn / Price(book, side) else sizeIn * Price(book, side)
  }

  lemma SoundIsFinite(book: Book, side: Side)
    requires book.mid > 0.0 && book.spreadBps >= 0.0
    ensures HasFiniteFill(book, side)
  {
    PositiveProduct(book.mid, 1.0 + book.spreadBps / 10_000.0);
  }

  lemma PositiveProduct(x: real, y: real)
    requires x > 0.0 && y > 0.0
    ensures x * y > 0.0
  {
  }

  function FillFor(feeBps: real, book: Book, intentId: string, order: Order): Fill
    requires HasFiniteFill(book, order.side)
  {
    var gross := GrossOut(book, order.side, order.sizeIn);
    var fee := gross * (feeBps / 10_000.0);
    Fill(intentId, order.side, order.base, order.quote, gross - fee, Price(book, order.side), fee)
  }

  function GetBalance(balances: map<string, real>, asset: string): real {
    if asset in balances then balances[asset] else 0.0
  }

  /** The balances after one asset changes. */
  function Credit(balances: map<string, real>, asset: string, change: real): map<string, real> {
    balances[asset := GetBalance(balances, asset) + change]
  }

  /** Takes `spent` of one asset and then adds `received` of the other. */
  function Swap(balances: map<string, real>, from: string, to: string, spent: real, received: real): map<string, real> {
    Credit(Credit(balances, from, -spent), to, received)
  }

  function SpentAsset(order: Order): string {
    if order.side == Buy then order.quote else order.base
  }

  function ReceivedAsset(order: Order): string {
    if order.side == Buy then order.base else order.quote
  }

  /** What an asset gains from a fill: the filled size where it is received, less the order's size where it is spent. */
  ghost function Gain(order: Order, filledSize: real, asset: string): real {
    (if asset == ReceivedAsset(order) then filledSize else 0.0)
    - (if asset == SpentAsset(order) then order.sizeIn else 0.0)
  }

  /** The order an execution works on, with the book it hits. */
  function Target(books: seq<Listing>, step: Option<Order>): Result<(Order, Book), Failure> {
    var order := if step.Some? then step else FallbackOrder(books);
    if order.None? then Err(MissingStep)
    else
      var book := FindBook(books, PairKey(order.value.base, order.value.quote));
      if book.None? then Err(UnsupportedPair) else Ok((order.value, book.value))
  }

  /** The order, if it meets a book at all, meets it at a price that gives a finite fill. */
  predicate IsFinite(books: seq<Listing>, step: Option<Order>) {
    match Target(books, step)
    case Err(_) => true
    case Ok((order, book)) => HasFiniteFill(book, order.side)
  }

  function AfterExecute(v: Venue, intentId: string, step: Option<Order>, live: bool): Venue
    requires IsFinite(v.books, step)
  {
    match Target(v.books, step)
    case Err(_) => v
    case Ok((order, book)) =>
      var fill := FillFor(v.feeBps, book, intentId, order);
      v.(
        balances :=
          if live then Swap(v.balances, SpentAsset(order), ReceivedAsset(order), order.sizeIn, fill.filledSize)
          else v.balances,
        fills := v.fills + [fill])
  }

  lemma TargetIsSound(feeBps: real, books: seq<Listing>, step: Option<Order>)
    requires Sound(feeBps, books)
    ensures IsFinite(books, step)
    ensures match Target(books, step)
      case Err(_) => true
      case Ok((order, book)) =>
        Listing(PairKey(order.base, order.quote), book) in books && book.mid > 0.0 && 0.0 <= book.spreadBps <= 10_000.0
  {
    var order := if step.Some? then step else FallbackOrder(books);
    if order.Some? { FoundIsListed(books, PairKey(order.value.base, order.value.quote)); }
    match Target(books, step)
    case Err(_) =>
    case Ok((order, book)) => SoundIsFinite(book, order.side);
  }

  // ---------- the adapter ----------

  class MockCexAdapter {
    const feeBps: real
    const books: seq<Listing>
    var balances: map<string, real>
    var fills: seq<Fill>

    function State(): Venue
      reads this
    {
      Venue(feeBps, books, balances, fills)
    }

    constructor (feeBps: real, books: seq<Listing>, balances: map<string, real>)
      ensures State() == Venue(feeBps, books, balances, [])
    {
      this.feeBps, this.books, this.balances, this.fills := feeBps, books, balances, [];
    }

    /** Quotes from the book without touching balances or fills. */
    method GetQuote(req: Order) returns (r: Result<Quote, Failure>)
      requires var book := FindBook(books, PairKey(req.base, req.quote));
        book.Some? ==> HasFiniteFill(book.value, req.side)
      ensures r.Err? <==> FindBook(books, PairKey(req.base, req.quote)).None?
      ensures r.Err? ==> r.error == UnsupportedPair
      ensures r.Ok? ==>
        var book := FindBook(books, PairKey(req.base, req.quote)).value;
        var fill := FillFor(feeBps, book, "", req);
        r.value == Quote(req.sizeIn, fill.filledSize, fill.avgPrice, feeBps, book.spreadBps)
    {
      var book := FindBook(books, PairKey(req.base, req.quote));
      if book.None? {
        return Err(UnsupportedPair);
      }
      var price := Price(book.value, req.side);
      var grossOut := GrossOut(book.value, req.side, req.sizeIn);
      Distribute(grossOut, 1.0, feeBps / 10_000.0);
      r := Ok(Quote(req.sizeIn, grossOut * (1.0 - feeBps / 10_000.0), price, feeBps, book.value.spreadBps));
    }

    /** The spent asset loses the size, the received one gains the fill, and no other balance is touched or added. */
    method ApplyBalances(side: Side, base: string, quote: string, sizeIn: real, filledSize: real)
      modifies this`balances
      ensures balances.Keys == old(balances).Keys + {base, quote}
      ensures forall asset ::
        GetBalance(balances, asset) ==
        GetBalance(old(balances), asset) + Gain(Order(base, quote, side, sizeIn), filledSize, asset)
    {
      if side == Buy {
        balances := balances[quote := GetBalance(balances, quote) - sizeIn];
        balances := balances[base := GetBalance(balances, base) + filledSize];
      } else {
        balances := balances[base := GetBalance(balances, base) - sizeIn];
        balances := balances[quote := GetBalance(balances, quote) + filledSize];
      }
    }

    method Execute(intentId: string, step: Option<Order>, live: bool) returns (r: Result<Fill, Failure>)
      requires IsFinite(books, step)
      modifies this
      ensures State() == AfterExecute(old(State()), intentId, step, live)
      ensures r.Ok? <==> Target(books, step).Ok?
      ensures r.Err? ==> r.error == Target(books, step).error
      ensures r.Ok? ==> fills == old(fills) + [r.value] && r.value.intentId == intentId
      ensures r.Ok? && step.Some? ==>
        r.value.side == step.value.side && r.value.base == step.value.base && r.value.quote == step.value.quote
    {
      var order := if step.Some? then step else FallbackOrder(books);
      if order.None? {
        return Err(MissingStep);
      }
      var book := FindBook(books, PairKey(order.value.base, order.value.quote));
      if book.None? {
        return Err(UnsupportedPair);
      }
      var fill := FillFor(feeBps, book.value, intentId, order.value);
      if live {
        ghost var before := balances;
        ApplyBalances(order.value.side, order.value.base, order.value.quote, order.value.sizeIn, fill.filledSize);
        SameBalances(
          balances,
          Swap(before, SpentAsset(order.value), ReceivedAsset(order.value), order.value.sizeIn, fill.filledSize));
      }
      fills := fills + [fill];
      r := Ok(fill);
    }
  }

  lemma SameBalances(a: map<string, real>, b: map<string, real>)
    requires a.Keys == b.Keys && forall asset :: GetBalance(a, asset) == GetBalance(b, asset)
    ensures a == b
  {
    forall asset | asset in a
      ensures a[asset] == b[asset]
    {
      assert GetBalance(a, asset) == GetBalance(b, asset);
    }
  }

  lemma Distribute(a: real, b: real, c: real)
    ensures a * (b - c) == a * b - a * c
  {
  }

  // ---------- what an execution may touch ----------

  /**
   * Simulations leave every balance alone; a live order moves its own two assets only, as if debited and then
   * credited.
   */
  lemma OnlyTheTwoAssetsMove(v: Venue, intentId: string, step: Option<Order>, live: bool, asset: string)
    requires IsFinite(v.books, step)
    ensures var after := AfterExecute(v, intentId, step, live);
      GetBalance(after.balances, asset) - GetBalance(v.balances, asset) ==
        if !live || Target(v.books, step).Err? then 0.0
        else
          Gain(Target(v.books, step).value.0, after.fills[|after.fills| - 1].filledSize, asset)
  {
  }

  /** An asset that was not held counts as none: what comes in is all there is, and what goes out is owed. */
  lemma UnheldIsZero(v: Venue, intentId: string, order: Order)
    requires IsFinite(v.books, Some(order)) && Target(v.books, Some(order)).Ok? && order.base != order.quote
    ensures var after := AfterExecute(v, intentId, Some(order), true);
      var received, spent :=
        if order.side == Buy then order.base else order.quote, if order.side == Buy then order.quote else order.base;
      && received in after.balances && spent in after.balances
      && (received !in v.balances ==> after.balances[received] == after.fills[|after.fills| - 1].filledSize)
      && (spent !in v.balances ==> after.balances[spent] == -order.sizeIn)
  {
  }

  /** At its average price a fill and its fee together are worth exactly the size that was spent. */
  lemma FillConserves(feeBps: real, book: Book, intentId: string, order: Order)
    requires HasFiniteFill(book, order.side)
    ensures var fill := FillFor(feeBps, book, intentId, order);
      if order.side == Buy then (fill.filledSize + fill.feePaid) * fill.avgPrice == order.sizeIn
      else fill.filledSize + fill.feePaid == order.sizeIn * fill.avgPrice
  {
    if order.side == Buy {
      var gross := GrossOut(book, Buy, order.sizeIn);
      assert gross * Price(book, Buy) == order.sizeIn;
    }
  }

  // ---------- no value is created ----------

  /** The value of the listed assets at a price per asset. */
  ghost function Value(balances: map<string, real>, worth: string -> real, assets: seq<string>): real {
    if assets == [] then 0.0
    else Value(balances, worth, assets[..|assets| - 1]) + Holding(balances, worth, assets[|assets| - 1])
  }

  ghost function Holding(balances: map<string, real>, worth: string -> real, asset: string): real {
    worth(asset) * GetBalance(balances, asset)
  }

  /** Every price is positive, and every mid is the ratio of the prices of its pair. */
  ghost predicate Consistent(books: seq<Listing>, worth: string -> real) {
    && (forall a :: worth(a) > 0.0)
    && forall b, q, book :: Listing(PairKey(b, q), book) in books ==> book.mid * worth(q) == worth(b)
  }

  lemma HoldingUpdate(balances: map<string, real>, worth: string -> real, asset: string, change: real, x: string)
    ensures Holding(Credit(balances, asset, change), worth, x) ==
      Holding(balances, worth, x) + if x == asset then worth(asset) * change else 0.0
  {
    Distribute(worth(x), GetBalance(balances, x), -change);
    Negate(worth(x), change);
  }

  lemma {:induction false} ValueUpdate(
      balances: map<string, real>, worth: string -> real, assets: seq<string>, asset: string, change: real)
    requires NoRepeat(assets)
    ensures Value(Credit(balances, asset, change), worth, assets) ==
      Value(balances, worth, assets) + if asset in assets then worth(asset) * change else 0.0
  {
    hide Holding, Credit;
    if assets != [] {
      var n := |assets| - 1;
      ValueUpdate(balances, worth, assets[..n], asset, change);
      assert assets == assets[..n] + [assets[n]];
      assert assets[n] !in assets[..n];
      HoldingUpdate(balances, worth, asset, change, assets[n]);
    }
  }

  lemma SwapValue(
      balances: map<string, real>, worth: string -> real, assets: seq<string>, from: string, to: string,
      spent: real, received: real)
    requires NoRepeat(assets) && from in assets && to in assets
    ensures Value(Swap(balances, from, to, spent, received), worth, assets) ==
      Value(balances, worth, assets) - worth(from) * spent + worth(to) * received
  {
    hide Value, GetBalance;
    ValueUpdate(balances, worth, assets, from, -spent);
    ValueUpdate(Credit(balances, from, -spent), worth, assets, to, received);
    Negate(worth(from), spent);
  }

  lemma Negate(x: real, y: real)
    ensures x * -y == -(x * y)
  {
  }

  /** What a fill costs at mid: the half spread and the fee on the value it hands over. */
  ghost function Toll(feeBps: real, book: Book, order: Order, worth: string -> real): real
    requires book.mid > 0.0 && book.spreadBps >= 0.0
  {
    var h, f := book.spreadBps / 10_000.0, feeBps / 10_000.0;
    if order.side == Buy then GrossOut(book, Buy, order.sizeIn) * worth(order.base) * (h + f)
    else order.sizeIn * worth(order.base) * (h + f * (1.0 - h))
  }

  /** Buying g worth of base at (1 + h) times its value, with a share f of it kept. */
  lemma BuyArithmetic(gross: real, size: real, mid: real, h: real, f: real, b: real, q: real)
    requires gross * (mid * (1.0 + h)) == size && mid * q == b
    ensures b * (gross - gross * f) - q * size == -(gross * b * (h + f))
  {
    var g := gross * b;
    assert q * size == g * (1.0 + h) by {
      Reorder(q, gross, mid, 1.0 + h);
    }
    assert b * (gross - gross * f) == g - g * f by {
      Keep(b, gross, f);
    }
    Distribute(g, h, -f);
    Distribute(g, 1.0, -h);
  }

  lemma Reorder(q: real, gross: real, mid: real, x: real)
    ensures q * (gross * (mid * x)) == gross * (mid * q) * x
  {
    Assoc(gross, mid, x);
    Assoc(q, gross * mid, x);
    Assoc(gross, mid, q);
  }

  lemma Assoc(a: real, b: real, c: real)
    ensures a * (b * c) == (a * b) * c
  {
  }

  lemma Keep(b: real, gross: real, f: real)
    ensures b * (gross - gross * f) == gross * b - gross * b * f
  {
    Distribute(b, gross, gross * f);
    Assoc(b, gross, f);
  }

  /** Selling w worth of base at (1 - h) times its value, with a share f of the proceeds kept. */
  lemma SellArithmetic(size: real, mid: real, h: real, f: real, b: real, q: real)
    requires mid * q == b
    ensures var gross := size * (mid * (1.0 - h));
      q * (gross - gross * f) - b * size == -(size * b * (h + f * (1.0 - h)))
  {
    var gross, w := size * (mid * (1.0 - h)), size * b;
    Reorder(q, size, mid, 1.0 - h);
    assert q * gross == w * (1.0 - h);
    Keep(q, gross, f);
    Assoc(w, f, 1.0 - h);
    assert gross * q * f == w * (f * (1.0 - h)) by { Assoc(w, 1.0 - h, f); }
    Distribute(w, h, -(f * (1.0 - h)));
    Distribute(w, 1.0, h);
  }

  /** A live fill lowers the total value at mid by exactly its toll. */
  lemma FillCostsItsToll(v: Venue, intentId: string, step: Option<Order>, worth: string -> real, assets: seq<string>)
    requires Sound(v.feeBps, v.books) && Consistent(v.books, worth) && NoRepeat(assets) && Target(v.books, step).Ok?
    requires var order := Target(v.books, step).value.0; order.base in assets && order.quote in assets
    ensures var (order, book) := Target(v.books, step).value;
      && book.mid > 0.0 && book.spreadBps >= 0.0
      && Value(AfterExecute(v, intentId, step, true).balances, worth, assets) ==
           Value(v.balances, worth, assets) - Toll(v.feeBps, book, order, worth)
  {
    hide Value, Swap, Price, GrossOut, Toll, NoRepeat;
    TargetIsSound(v.feeBps, v.books, step);
    var (order, book) := Target(v.books, step).value;
    var fill := FillFor(v.feeBps, book, intentId, order);
    SwapValue(v.balances, worth, assets, SpentAsset(order), ReceivedAsset(order), order.sizeIn, fill.filledSize);
    FillArithmetic(v.feeBps, book, intentId, order, worth);
  }

  lemma FillArithmetic(feeBps: real, book: Book, intentId: string, order: Order, worth: string -> real)
    requires book.mid > 0.0 && book.spreadBps >= 0.0 && book.mid * worth(order.quote) == worth(order.base)
    ensures worth(ReceivedAsset(order)) * FillFor(feeBps, book, intentId, order).filledSize
      - worth(SpentAsset(order)) * order.sizeIn
      == -Toll(feeBps, book, order, worth)
  {
    var h, f := book.spreadBps / 10_000.0, feeBps / 10_000.0;
    var gross := GrossOut(book, order.side, order.sizeIn);
    if order.side == Buy {
      PositiveProduct(book.mid, 1.0 + h);
      assert gross * Price(book, Buy) == order.sizeIn;
      BuyArithmetic(gross, order.sizeIn, book.mid, h, f, worth(order.base), worth(order.quote));
    } else {
      SellArithmetic(order.sizeIn, book.mid, h, f, worth(order.base), worth(order.quote));
    }
  }

  /** The toll is never negative, and zero only for an empty order or a book and venue that charge nothing. */
  lemma TollIsFair(feeBps: real, book: Book, order: Order, worth: string -> real)
    requires book.mid > 0.0 && 0.0 <= book.spreadBps <= 10_000.0 && 0.0 <= feeBps <= 10_000.0
    requires worth(order.base) > 0.0 && order.sizeIn >= 0.0
    ensures Toll(feeBps, book, order, worth) >= 0.0
    ensures Toll(feeBps, book, order, worth) == 0.0 <==> order.sizeIn == 0.0 || (book.spreadBps == 0.0 && feeBps == 0.0)
  {
    var h, f := book.spreadBps / 10_000.0, feeBps / 10_000.0;
    if order.side == Buy {
      PositiveProduct(book.mid, 1.0 + h);
      var gross := GrossOut(book, Buy, order.sizeIn);
      QuotientSign(order.sizeIn, Price(book, Buy));
      ProductSign(gross, worth(order.base));
      ProductSign(gross * worth(order.base), h + f);
    } else {
      ProductSign(f, 1.0 - h);
      ProductSign(order.sizeIn, worth(order.base));
      ProductSign(order.sizeIn * worth(order.base), h + f * (1.0 - h));
    }
  }

  lemma QuotientSign(x: real, y: real)
    requires x >= 0.0 && y > 0.0
    ensures x / y >= 0.0 && (x / y == 0.0 <==> x == 0.0)
  {
    var q := x / y;
    assert q * y == x;
  }

  lemma ProductSign(x: real, y: real)
    requires x >= 0.0 && y >= 0.0
    ensures x * y >= 0.0 && (x * y == 0.0 <==> x == 0.0 || y == 0.0)
  {
  }

  // ---------- runs ----------

  datatype Request = Request(intentId: string, step: Option<Order>, live: bool)

  ghost function RunAll(v: Venue, requests: seq<Request>): (after: Venue)
    requires Sound(v.feeBps, v.books)
    ensures after.feeBps == v.feeBps && after.books == v.books
  {
    if requests == [] then v
    else
      var before, last := RunAll(v, requests[..|requests| - 1]), requests[|requests| - 1];
      TargetIsSound(v.feeBps, v.books, last.step);
      AfterExecute(before, last.intentId, last.step, last.live)
  }

  /** Orders with non-negative sizes over listed assets. */
  ghost predicate Proper(books: seq<Listing>, assets: seq<string>, r: Request) {
    var target := Target(books, r.step);
    target.Ok? ==> target.value.0.sizeIn >= 0.0 && target.value.0.base in assets && target.value.0.quote in assets
  }

  /** Over every run of executions the total value at mid never rises, and stays put if none was live. */
  lemma {:induction false} NoValueCreated(v: Venue, requests: seq<Request>, worth: string -> real, assets: seq<string>)
    requires Sound(v.feeBps, v.books) && Consistent(v.books, worth) && NoRepeat(assets)
    requires forall r :: r in requests ==> Proper(v.books, assets, r)
    ensures Value(RunAll(v, requests).balances, worth, assets) <= Value(v.balances, worth, assets)
    ensures (forall r :: r in requests ==> !r.live) ==> RunAll(v, requests).balances == v.balances
  {
    hide Value, Toll;
    if requests != [] {
      var n := |requests| - 1;
      var before, last := RunAll(v, requests[..n]), requests[n];
      NoValueCreated(v, requests[..n], worth, assets);
      assert last in requests;
      TargetIsSound(v.feeBps, v.books, last.step);
      if last.live && Target(v.books, last.step).Ok? {
        FillCostsItsToll(before, last.intentId, last.step, worth, assets);
        var (order, book) := Target(v.books, last.step).value;
        TollIsFair(v.feeBps, book, order, worth);
      }
    }
  }

  // ---------- the fallback ----------

  lemma {:induction false} CutSlash(a: string, b: string)
    requires '/' !in a
    ensures Cut(a + "/" + b) == (a, Some(b)) && Cut(a) == (a, None)
  {
    if a == "" {
      assert (a + "/" + b)[1..] == b;
    } else {
      CutSlash(a[1..], b);
      assert (a + "/" + b)[1..] == a[1..] + "/" + b && a == [a[0]] + a[1..];
    }
  }

  /** With slash-free asset names an execution without a step buys the first configured book with one unit. */
  lemma FallbackBuysFirstBook(books: seq<Listing>, base: string, quote: string)
    requires books != [] && books[0].key == PairKey(base, quote) && '/' !in base && '/' !in quote
    ensures Target(books, None) == Ok((Order(base, quote, Buy, 1.0), books[0].book))
  {
    CutSlash(base, quote);
    CutSlash(quote, "");
    var order := Order(base, quote, Buy, 1.0);
    assert FallbackOrder(books) == Some(order);
    assert FindBook(books, PairKey(base, quote)) == Some(books[0].book);
    assert Target(books, None) == Ok((order, books[0].book));
  }

  /** There is nothing to fall back to exactly when no book is configured or the first has an empty key. */
  lemma NoFallbackIff(books: seq<Listing>)
    ensures Target(books, None) == Err(MissingStep) <==> books == [] || books[0].key == ""
  {
  }

  /** Of the first key the fallback takes the parts around its first slash and drops what a second slash begins. */
  lemma FallbackReadsKey(books: seq<Listing>, base: string, quote: string, more: string)
    requires books != [] && '/' !in base && '/' !in quote
    ensures books[0].key == base + "/" + (quote + "/" + more) ==>
      FallbackOrder(books) == Some(Order(base, quote, Buy, 1.0))
    ensures books[0].key == base && base != "" ==> FallbackOrder(books) == Some(Order(base, "undefined", Buy, 1.0))
  {
    CutSlash(base, quote + "/" + more);
    CutSlash(quote, more);
  }
}

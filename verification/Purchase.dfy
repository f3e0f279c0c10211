/**
 * Supplier and distributor of one booking: the supplier mints a reservation at the price of its mint response
 * (internal/messaging/mint_v5.go), and the distributor waits until that reservation is visible on its own node
 * (pkg/booking/booking.go) before it buys at the price it derived itself.
 */
module Purchase {
  import opened Types
  import opened Decimals
  import opened Price

  // ---------- The visibility poll ----------

  /** One read of the reservation: an error, or a price and a payment token, both zero while not synced. */
  datatype Read = ReadError | Reservation(price: int, paymentToken: Address)

  datatype PollResult =
    | Visible
    | Mismatch(actualPrice: int, actualToken: Address)
    | NotVisible
    | Cancelled

  predicate Present(r: Read) {
    r.Reservation? && (r.price != 0 || r.paymentToken != 0)
  }

  predicate Matches(r: Read, price: int, token: Address) {
    r.Reservation? && r.price == price && r.paymentToken == token
  }

  /** Whether the poll goes on after attempt `i`: nothing present yet, and the wait before the next is not cancelled. */
  predicate GoesOn(views: seq<Read>, cancelled: nat -> bool, i: nat)
    requires i < |views|
  {
    !Present(views[i]) && i + 1 < |views| && !cancelled(i)
  }

  /** What the poll answers if attempt `i` is its last. */
  function Verdict(views: seq<Read>, cancelled: nat -> bool, price: int, token: Address, i: nat): PollResult
    requires i < |views|
  {
    if Present(views[i]) then
      if Matches(views[i], price, token) then Visible else Mismatch(views[i].price, views[i].paymentToken)
    else if i + 1 < |views| then Cancelled
    else NotVisible
  }

  /** The attempt at which the poll stops. */
  function StopsAt(views: seq<Read>, cancelled: nat -> bool, from: nat): (i: nat)
    requires from < |views|
    ensures from <= i < |views|
    ensures !GoesOn(views, cancelled, i) && forall j | from <= j < i :: GoesOn(views, cancelled, j)
    decreases |views| - from
  {
    if GoesOn(views, cancelled, from) then StopsAt(views, cancelled, from + 1) else from
  }

  function Poll(views: seq<Read>, cancelled: nat -> bool, price: int, token: Address): PollResult {
    if |views| == 0 then NotVisible
    else Verdict(views, cancelled, price, token, StopsAt(views, cancelled, 0))
  }

  /** pollTokenVisible: `views` are what the node would answer, one per attempt; `calls` counts those made. */
  method PollTokenVisible(views: seq<Read>, cancelled: nat -> bool, expectedPrice: int, expectedToken: Address)
    returns (r: PollResult, calls: nat)
    ensures r == Poll(views, cancelled, expectedPrice, expectedToken)
    ensures calls == if |views| == 0 then 0 else StopsAt(views, cancelled, 0) + 1
  {
    calls := 0;
    for attempt := 0 to |views|
      invariant calls == attempt
      invariant forall j | 0 <= j < attempt :: j + 1 < |views| && GoesOn(views, cancelled, j)
      invariant attempt < |views| ==> StopsAt(views, cancelled, 0) == StopsAt(views, cancelled, attempt)
    {
      var read := views[attempt];
      calls := calls + 1;
      if read.Reservation? {
        var present := read.price != 0 || read.paymentToken != 0;
        if present {
          if read.price == expectedPrice && read.paymentToken == expectedToken {
            return Visible, calls;
          }
          return Mismatch(read.price, read.paymentToken), calls;
        }
      }
      if attempt == |views| - 1 {
        return NotVisible, calls;
      }
      if cancelled(attempt) {
        return Cancelled, calls;
      }
    }
    return NotVisible, calls;
  }

  /**
   * The first present read decides: if read `i` is present, none before it is, and no wait before it is cancelled, then
   * the poll succeeds iff that read matches, reports a mismatch otherwise, and makes exactly `i + 1` reads.
   */
  lemma FirstPresentDecides(views: seq<Read>, cancelled: nat -> bool, price: int, token: Address, i: nat)
    requires i < |views| && Present(views[i])
    requires forall j: nat | j < i :: !Present(views[j]) && !cancelled(j)
    ensures StopsAt(views, cancelled, 0) == i
    ensures Poll(views, cancelled, price, token) ==
            if Matches(views[i], price, token) then Visible else Mismatch(views[i].price, views[i].paymentToken)
  {
    assert !GoesOn(views, cancelled, i);
    assert forall j: nat | j < i :: GoesOn(views, cancelled, j);
  }

  /** Nothing is present up to read `i`, and no wait before that is cancelled. */
  predicate QuietUpTo(views: seq<Read>, cancelled: nat -> bool, i: nat)
    requires i < |views|
  {
    (forall j: nat | j <= i :: !Present(views[j])) && forall j: nat | j < i :: !cancelled(j)
  }

  /**
   * Without a present read the poll is cancelled iff some wait is, before anything is present and before the last
   * attempt; and it gives up iff nothing is present at any attempt and no wait between two attempts is cancelled.
   */
  lemma AbsentOutcomes(views: seq<Read>, cancelled: nat -> bool, price: int, token: Address)
    ensures Poll(views, cancelled, price, token).Cancelled? <==>
            exists i: nat :: i + 1 < |views| && QuietUpTo(views, cancelled, i) && cancelled(i)
    ensures Poll(views, cancelled, price, token).NotVisible? <==>
            |views| == 0 || QuietUpTo(views, cancelled, |views| - 1)
  {
    if |views| > 0 {
      var stop := StopsAt(views, cancelled, 0);
      forall j: nat | j < stop
        ensures !Present(views[j]) && !cancelled(j)
      {
        assert GoesOn(views, cancelled, j);
      }
      forall i: nat | i + 1 < |views| && QuietUpTo(views, cancelled, i) && cancelled(i)
        ensures stop == i
      {
        assert !GoesOn(views, cancelled, i);
      }
      if Poll(views, cancelled, price, token).Cancelled? {
        assert QuietUpTo(views, cancelled, stop) && cancelled(stop);
      }
    }
  }

  /** A reservation is written once: a node either answers it, or has not synced it, or fails. */
  predicate Immutable(views: seq<Read>, price: int, token: Address) {
    forall r | r in views :: r.ReadError? || (r.price == 0 && r.paymentToken == 0) || Matches(r, price, token)
  }

  /** Read `i` shows the reservation, and no wait before it is cancelled. */
  predicate ShownAt(views: seq<Read>, cancelled: nat -> bool, price: int, token: Address, i: nat) {
    i < |views| && Matches(views[i], price, token) && forall j: nat | j < i :: !cancelled(j)
  }

  /** Some read presents the reservation, which is not the free native one, before any wait is cancelled. */
  ghost predicate Shown(views: seq<Read>, cancelled: nat -> bool, price: int, token: Address) {
    (price != 0 || token != 0) && exists i: nat :: ShownAt(views, cancelled, price, token, i)
  }

  /**
   * Against an immutable reservation the poll decides iff the reservation is shown: it then succeeds iff the
   * expectation is what was reserved, and reports a mismatch iff it is not.
   */
  lemma ImmutableDecides(views: seq<Read>, cancelled: nat -> bool, price: int, token: Address,
                         expectedPrice: int, expectedToken: Address)
    requires Immutable(views, price, token)
    ensures var same := expectedPrice == price && expectedToken == token;
            var p := Poll(views, cancelled, expectedPrice, expectedToken);
            && (p.Visible? <==> same && Shown(views, cancelled, price, token))
            && (p.Mismatch? <==> !same && Shown(views, cancelled, price, token))
            && (p.Mismatch? ==> p == Mismatch(price, token))
  {
    if |views| > 0 {
      var stop := StopsAt(views, cancelled, 0);
      assert views[stop] in views;
      if Present(views[stop]) {
        forall j: nat | j < stop
          ensures !cancelled(j)
        {
          assert GoesOn(views, cancelled, j);
        }
        assert ShownAt(views, cancelled, price, token, stop);
      } else {
        forall i: nat | ShownAt(views, cancelled, price, token, i)
          ensures price == 0 && token == 0
        {
          assert i < stop ==> GoesOn(views, cancelled, i);
        }
      }
    }
  }

  // ---------- Mint and buy ----------

  /**
   * The fields of a version 5 mint response that the two sides read and write; `alerts` counts those in its header.
   * `Panicked` stands for the panic that decimals beyond int32 cause.
   */
  datatype MintResponse =
    | Success(price: Option<PriceV5>, cancellable: bool, tokenID: nat, mintTx: Option<string>, buyTx: Option<string>,
              alerts: nat)
    | ErrorResponse
    | Panicked

  function Failure(error: PriceError): MintResponse {
    if error.Panic? then Panicked else ErrorResponse
  }

  /** What the mint transaction stored on chain. */
  datatype OnChain = OnChain(price: int, paymentToken: Address)

  /** A mint may also take effect without its event being found in the receipt. */
  datatype Mint = Failed | Unlogged | Minted(tokenID: nat, tx: string)

  const UINT64_LIMIT := 0x1_0000_0000_0000_0000

  /** The supplier's side: derive the amount, mint, and fill in the token's low 64 bits and the transaction. */
  function PrepareMintResponse(response: MintResponse, t: Tokens, buyableOk: bool, mint: Mint)
    : (MintResponse, Option<OnChain>)
  {
    if !response.Success? then (response, None) else
    if !buyableOk then (ErrorResponse, None) else
    var amount := GetPriceAndTokenV5(response.price, t);
    if amount.Err? then (Failure(amount.error), None) else
    if mint.Failed? then (ErrorResponse, None) else
    var onChain := Some(OnChain(amount.amount.price, amount.amount.paymentToken));
    if mint.Unlogged? then (ErrorResponse, onChain) else
    (response.(tokenID := mint.tokenID % UINT64_LIMIT, mintTx := Some(mint.tx)), onChain)
  }

  predicate PriceConverts(price: Option<PriceV5>, t: Tokens) {
    price.Some? && Convertible(price.value.value, price.value.decimals, price.value.currency, t)
    && price.value.decimals < 0x8000_0000
  }

  /** What a price comes to when it converts. */
  lemma ConvertedAmount(price: Option<PriceV5>, t: Tokens)
    ensures var r := GetPriceAndTokenV5(price, t);
            && (r.Ok? <==> PriceConverts(price, t))
            && (r.Ok? ==>
                  && Some(r.amount.price) ==
                     ParseBigInt(price.value.value
                                 + Zeros(TotalDecimals(price.value.currency, t).value - price.value.decimals))
                  && r.amount.paymentToken == PaymentToken(price.value.currency, t))
  {
    if price.Some? && price.value.decimals < 0x8000_0000 {
      var PriceV5(value, decimals, currency) := price.value;
      VersionsAgree(value, decimals, currency, t);
      assert price == Some(PriceV5(value, decimals, currency));
    } else if price.Some? {
      HugeDecimals(price.value, t);
    }
  }

  lemma HugeDecimals(price: PriceV5, t: Tokens)
    requires price.decimals >= 0x8000_0000
    ensures GetPriceAndTokenV5(Some(price), t).Err?
  {
  }

  /**
   * prepareMintResponseV5, overwriting the response's fields after the mint. Something is put on chain iff the deadline
   * is accepted, the price converts and the mint takes effect, and then it is the number written with the missing
   * zeros; the response names the token iff, besides, the mint was seen.
   */
  method PrepareMint(response: MintResponse, t: Tokens, buyableOk: bool, mint: Mint)
    returns (r: MintResponse, onChain: Option<OnChain>)
    ensures onChain.Some? <==> response.Success? && buyableOk && PriceConverts(response.price, t) && !mint.Failed?
    ensures onChain.Some? ==>
              var price := response.price.value;
              && Some(onChain.value.price) ==
                 ParseBigInt(price.value + Zeros(TotalDecimals(price.currency, t).value - price.decimals))
              && onChain.value.paymentToken == PaymentToken(price.currency, t)
    ensures r.Success? <==> onChain.Some? && mint.Minted?
    ensures r.Success? ==> r == response.(tokenID := mint.tokenID % UINT64_LIMIT, mintTx := Some(mint.tx))
    ensures (r, onChain) == PrepareMintResponse(response, t, buyableOk, mint)
  {
    ConvertedAmount(if response.Success? then response.price else None, t);
    r, onChain := response, None;
    if !response.Success? {
      return;
    }
    if !buyableOk {
      return ErrorResponse, None;
    }
    var amount := GetPriceAndTokenV5(response.price, t);
    if amount.Err? {
      return Failure(amount.error), None;
    }
    if mint.Failed? {
      return ErrorResponse, None;
    }
    onChain := Some(OnChain(amount.amount.price, amount.amount.paymentToken));
    if mint.Unlogged? {
      return ErrorResponse, onChain;
    }
    r := r.(tokenID := mint.tokenID % UINT64_LIMIT);
    r := r.(mintTx := Some(mint.tx));
  }

  /** What the distributor is about to buy: the token, at an amount it derives from the response's price itself. */
  datatype Order = NoOrder(response: MintResponse) | Order(tokenID: nat, price: int, paymentToken: Address)

  function PlaceOrder(expectedPrice: Option<PriceV5>, response: MintResponse, t: Tokens): Order {
    if !response.Success? then NoOrder(response) else
    if response.mintTx.None? then NoOrder(ErrorResponse) else
    if expectedPrice != response.price then NoOrder(ErrorResponse) else
    var amount := GetPriceAndTokenV5(response.price, t);
    if amount.Err? then NoOrder(Failure(amount.error)) else
    Order(response.tokenID, amount.amount.price, amount.amount.paymentToken)
  }

  /**
   * What the distributor's node and chain do: what the node answers about each token, attempt by attempt, the buy, and
   * the cancellation subscription.
   */
  datatype BuyEnv = BuyEnv(views: nat -> seq<Read>, cancelled: nat -> bool, bought: Option<string>, subscribeOk: bool)

  function PollFor(order: Order, env: BuyEnv): PollResult
    requires order.Order?
  {
    Poll(env.views(order.tokenID), env.cancelled, order.price, order.paymentToken)
  }

  predicate Buys(order: Order, env: BuyEnv) {
    order.Order? && PollFor(order, env).Visible? && env.bought.Some?
  }

  function Answer(expectedPrice: Option<PriceV5>, response: MintResponse, t: Tokens, env: BuyEnv): MintResponse {
    var order := PlaceOrder(expectedPrice, response, t);
    if order.NoOrder? then order.response
    else if !Buys(order, env) then ErrorResponse
    else response.(buyTx := env.bought,
                   alerts := response.alerts + if response.cancellable && !env.subscribeOk then 1 else 0)
  }

  /**
   * The distributor's side: poll, buy, and subscribe to the cancellation of what was bought; a subscription that fails
   * only adds an alert. `watched` is the token subscribed to.
   */
  method ProcessMintResponse(expectedPrice: Option<PriceV5>, response: MintResponse, t: Tokens, env: BuyEnv)
    returns (r: MintResponse, poll: Option<PollResult>, watched: Option<nat>)
    ensures poll.Some? <==>
              && response.Success? && response.mintTx.Some? && expectedPrice == response.price
              && PriceConverts(response.price, t)
    ensures poll.Some? ==>
              var price := response.price.value;
              var amount := ParseBigInt(price.value + Zeros(TotalDecimals(price.currency, t).value - price.decimals));
              && amount.Some?
              && poll.value == Poll(env.views(response.tokenID), env.cancelled, amount.value,
                                    PaymentToken(price.currency, t))
    ensures r.Success? <==> poll == Some(Visible) && env.bought.Some?
    ensures r.Success? ==>
              && r == response.(buyTx := env.bought, alerts := r.alerts)
              && r.alerts == response.alerts + if response.cancellable && !env.subscribeOk then 1 else 0
    ensures watched == if r.Success? && response.cancellable && env.subscribeOk then Some(response.tokenID) else None
    ensures r == Answer(expectedPrice, response, t, env)
    ensures var order := PlaceOrder(expectedPrice, response, t);
            && poll == (if order.NoOrder? then None else Some(PollFor(order, env)))
  {
    ConvertedAmount(if response.Success? then response.price else None, t);
    poll, watched := None, None;
    if !response.Success? {
      return response, None, None;
    }
    if response.mintTx.None? || expectedPrice != response.price {
      return ErrorResponse, None, None;
    }
    var amount := GetPriceAndTokenV5(response.price, t);
    if amount.Err? {
      return Failure(amount.error), None, None;
    }
    var visible, calls := PollTokenVisible(env.views(response.tokenID), env.cancelled, amount.amount.price,
                                           amount.amount.paymentToken);
    poll := Some(visible);
    if !visible.Visible? || env.bought.None? {
      return ErrorResponse, poll, None;
    }
    r := response.(buyTx := env.bought);
    if response.cancellable {
      if env.subscribeOk {
        watched := Some(response.tokenID);
      } else {
        r := r.(alerts := r.alerts + 1);
      }
    }
  }

  /**
   * Mint and buy agree. The supplier converts the price by `ts`, the distributor by `td`, which may differ in the
   * decimals a contract reports. Once something was minted, an order is placed iff the distributor expected just the
   * supplier's price and can convert it; it is for the minted token iff the ID fits 64 bits, in the payment token put
   * on chain, and at the amount put on chain iff the decimals agree or the value is zero.
   */
  lemma MintAndBuyAgree(response: MintResponse, ts: Tokens, td: Tokens, mint: Mint, expectedPrice: Option<PriceV5>)
    requires forall contract :: ts.fromHex(contract) == td.fromHex(contract)
    requires mint.Minted? && PrepareMintResponse(response, ts, true, mint).1.Some?
    ensures var (answer, onChain) := PrepareMintResponse(response, ts, true, mint);
            var order := PlaceOrder(expectedPrice, answer, td);
            && (order.Order? <==> expectedPrice == response.price && PriceConverts(response.price, td))
            && (order.Order? ==>
                  && (order.tokenID == mint.tokenID <==> mint.tokenID < UINT64_LIMIT)
                  && order.paymentToken == onChain.value.paymentToken
                  && (order.price == onChain.value.price <==>
                        TotalDecimals(response.price.value.currency, ts)
                        == TotalDecimals(response.price.value.currency, td)
                        || ParseBigInt(response.price.value.value) == Some(0)))
  {
    ConvertedAmount(response.price, ts);
    ConvertedAmount(response.price, td);
    if PriceConverts(response.price, td) {
      SameAmountIffSameDecimals(response.price.value, ts, td);
    }
  }

  /** Both sides are told the same decimals, or none are needed because the value is zero. */
  predicate SameScale(price: PriceV5, ts: Tokens, td: Tokens) {
    TotalDecimals(price.currency, ts) == TotalDecimals(price.currency, td) || ParseBigInt(price.value) == Some(0)
  }

  /** What the node may answer about each token, given what the chain holds: (0, 0) for a token that is not minted. */
  ghost predicate Truthful(env: BuyEnv, reserved: nat -> OnChain) {
    forall id: nat :: Immutable(env.views(id), reserved(id).price, reserved(id).paymentToken)
  }

  /**
   * The purchase as a whole, against what the chain holds, among it the reservation that the supplier's mint wrote. The
   * token polled and bought is the one of the low 64 bits of the minted ID. The distributor buys iff it expected the
   * supplier's price, can convert it, what is reserved for that token is what it worked out, is shown to it before a wait
   * is cancelled, and the buy goes through; its poll mismatches iff something else is shown for that token. An ID that
   * fits 64 bits is that of the minted token, and then what is reserved is what was worked out iff both sides scale alike.
   */
  lemma MintThenBuy(response: MintResponse, ts: Tokens, td: Tokens, mint: Mint, expectedPrice: Option<PriceV5>,
                    env: BuyEnv, reserved: nat -> OnChain)
    requires forall contract :: ts.fromHex(contract) == td.fromHex(contract)
    requires mint.Minted? && PrepareMintResponse(response, ts, true, mint).1 == Some(reserved(mint.tokenID))
    requires Truthful(env, reserved)
    ensures var answer := PrepareMintResponse(response, ts, true, mint).0;
            var order := PlaceOrder(expectedPrice, answer, td);
            var bought := reserved(mint.tokenID % UINT64_LIMIT);
            var shown := Shown(env.views(mint.tokenID % UINT64_LIMIT), env.cancelled, bought.price, bought.paymentToken);
            && (order.Order? <==> expectedPrice == response.price && PriceConverts(response.price, td))
            && (Answer(expectedPrice, answer, td, env).Success? <==>
                  order.Order? && OnChain(order.price, order.paymentToken) == bought && shown && env.bought.Some?)
            && (order.Order? ==>
                  (PollFor(order, env).Mismatch? <==> OnChain(order.price, order.paymentToken) != bought && shown))
            && (order.Order? && mint.tokenID < UINT64_LIMIT ==>
                  (OnChain(order.price, order.paymentToken) == bought <==> SameScale(response.price.value, ts, td)))
  {
    var answer := PrepareMintResponse(response, ts, true, mint).0;
    var order := PlaceOrder(expectedPrice, answer, td);
    var id := mint.tokenID % UINT64_LIMIT;
    MintAndBuyAgree(response, ts, td, mint, expectedPrice);
    if order.Order? {
      assert Immutable(env.views(id), reserved(id).price, reserved(id).paymentToken);
      ImmutableDecides(env.views(id), env.cancelled, reserved(id).price, reserved(id).paymentToken,
                       order.price, order.paymentToken);
    }
  }
}

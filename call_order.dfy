/**
 * Calling order: the player after the dealer calls first and the dealer calls last, one
 * seat at a time. A round's calls are entered in this order, one per player.
 */
module CallOrder {
  import opened Wrappers
  import Js
  import Seqs
  import DealerRotation

  /** The order `getCallingOrder` builds: entry `i` is seat `(dealerIndex + 1 + i) % playerCount`. */
  function CallingOrder(dealerIndex: int, playerCount: int): (order: seq<int>)
    ensures |order| == if playerCount > 0 then playerCount else 0
  {
    if playerCount <= 0 then []
    else seq(playerCount, i requires 0 <= i < playerCount => Js.Rem(dealerIndex + 1 + i, playerCount))
  }

  /** `getCallingOrder(dealerIndex, playerCount)`, pushing one seat per pass of its loop. */
  method GetCallingOrder(dealerIndex: int, playerCount: int) returns (order: seq<int>)
    ensures order == CallingOrder(dealerIndex, playerCount)
  {
    order := [];
    var i := 0;
    while i < playerCount
      invariant 0 <= i <= |CallingOrder(dealerIndex, playerCount)|
      invariant order == CallingOrder(dealerIndex, playerCount)[..i]
    {
      var playerIndex := Js.Rem(dealerIndex + 1 + i, playerCount);
      order := order + [playerIndex];
      i := i + 1;
    }
    assert CallingOrder(dealerIndex, playerCount)[..i] == CallingOrder(dealerIndex, playerCount);
  }

  /**
   * With the dealer at a seat, the order lists every seat exactly once: the player after the
   * dealer first, the dealer last, and seat `s` at position `(s - dealerIndex - 1) mod n`.
   */
  lemma CallingOrderIsRotation(dealerIndex: int, playerCount: int)
    requires 0 <= dealerIndex < playerCount
    ensures var order := CallingOrder(dealerIndex, playerCount);
      && |order| == playerCount
      && (forall i :: 0 <= i < playerCount ==> 0 <= order[i] < playerCount)
      && Seqs.Distinct(order)
      && (forall s :: 0 <= s < playerCount ==> s in order)
      && order[0] == DealerRotation.GetNextDealerIndex(dealerIndex, playerCount)
      && order[playerCount - 1] == dealerIndex
  {
    var order := CallingOrder(dealerIndex, playerCount);
    forall i | 0 <= i < playerCount ensures order[i] == (dealerIndex + 1 + i) % playerCount {
      assert order[i] == Js.Rem(dealerIndex + 1 + i, playerCount);
    }
    forall i, j | 0 <= i < j < playerCount ensures order[i] != order[j] {
      DealerRotation.ModDistinct(dealerIndex + 1 + i, j - i, playerCount);
      assert dealerIndex + 1 + j == (dealerIndex + 1 + i) + (j - i);
    }
    forall s | 0 <= s < playerCount ensures s in order {
      var k := if s > dealerIndex then s - dealerIndex - 1 else s - dealerIndex - 1 + playerCount;
      if s > dealerIndex {
        DealerRotation.ModUnique(dealerIndex + 1 + k, playerCount, 0, s);
      } else {
        DealerRotation.ModUnique(dealerIndex + 1 + k, playerCount, 1, s);
      }
      assert order[k] == s;
    }
    DealerRotation.ModUnique(dealerIndex + playerCount, playerCount, 1, dealerIndex);
    assert order[playerCount - 1] == Js.Rem(dealerIndex + playerCount, playerCount);
  }

  /** The source's own example: with the dealer at seat 2 of 4 the order is 3, 0, 1, 2. */
  lemma CallingOrderExample()
    ensures CallingOrder(2, 4) == [3, 0, 1, 2]
  {
    var order := CallingOrder(2, 4);
    assert order[0] == Js.Rem(3, 4) == 3;
    assert order[1] == Js.Rem(4, 4) == 0;
    assert order[2] == Js.Rem(5, 4) == 1;
    assert order[3] == Js.Rem(6, 4) == 2;
  }

  /**
   * `getCurrentCallerIndex(dealerIndex, playerCount, callsMade)`: `null` once every player has
   * called, otherwise the seat at position `callsMade` of the order. A negative `callsMade`
   * reads `order[-1]`, which is `undefined`; both are `None` here.
   */
  function GetCurrentCallerIndex(dealerIndex: int, playerCount: int, callsMade: int): (r: Option<int>)
  {
    if callsMade >= playerCount then None
    else if callsMade < 0 then None
    else Some(CallingOrder(dealerIndex, playerCount)[callsMade])
  }

  /** `canPlayerCall(seat, dealerIndex, playerCount, callsMade)`: the seat is the current caller. */
  predicate CanPlayerCall(playerSeatingPosition: int, dealerIndex: int, playerCount: int, callsMade: int)
  {
    GetCurrentCallerIndex(dealerIndex, playerCount, callsMade) == Some(playerSeatingPosition)
  }

  /**
   * The current caller exists exactly while fewer than `playerCount` calls are made, is a seat,
   * is the player after the dealer before any call and the dealer before the last call.
   */
  lemma CurrentCaller(dealerIndex: int, playerCount: int, callsMade: int)
    requires 0 <= dealerIndex < playerCount
    ensures GetCurrentCallerIndex(dealerIndex, playerCount, callsMade).Some? <==> 0 <= callsMade < playerCount
    ensures GetCurrentCallerIndex(dealerIndex, playerCount, callsMade).Some? ==>
      0 <= GetCurrentCallerIndex(dealerIndex, playerCount, callsMade).value < playerCount
    ensures callsMade == 0 ==>
      GetCurrentCallerIndex(dealerIndex, playerCount, callsMade) == Some(DealerRotation.GetNextDealerIndex(dealerIndex, playerCount))
    ensures callsMade == playerCount - 1 ==>
      GetCurrentCallerIndex(dealerIndex, playerCount, callsMade) == Some(dealerIndex)
  {
    CallingOrderIsRotation(dealerIndex, playerCount);
  }

  /**
   * Every seat gets exactly one turn to call in a round: there is one number of calls made at
   * which it may call, and no other; a number outside the seats never may.
   */
  lemma EachSeatCallsOnce(seat: int, dealerIndex: int, playerCount: int)
    requires 0 <= dealerIndex < playerCount
    ensures 0 <= seat < playerCount ==> exists c :: 0 <= c < playerCount && CanPlayerCall(seat, dealerIndex, playerCount, c)
    ensures forall c1, c2 ::
      CanPlayerCall(seat, dealerIndex, playerCount, c1) && CanPlayerCall(seat, dealerIndex, playerCount, c2) ==> c1 == c2
    ensures !(0 <= seat < playerCount) ==> forall c :: !CanPlayerCall(seat, dealerIndex, playerCount, c)
  {
    CallingOrderIsRotation(dealerIndex, playerCount);
    var order := CallingOrder(dealerIndex, playerCount);
    if 0 <= seat < playerCount {
      assert seat in order;
      var c :| 0 <= c < playerCount && order[c] == seat;
      assert CanPlayerCall(seat, dealerIndex, playerCount, c);
    }
  }
}

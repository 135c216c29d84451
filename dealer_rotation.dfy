/**
 * Dealer rotation: the deal passes one seat clockwise each round, so the dealer of round `r`
 * is `r - 1` seats on from the first dealer. Seats are numbered `0 .. playerCount - 1`.
 */
module DealerRotation {
  import Js

  /** `getNextDealerIndex(currentDealerIndex, playerCount)`: `(currentDealerIndex + 1) % playerCount`. */
  function GetNextDealerIndex(currentDealerIndex: int, playerCount: int): (r: int)
    requires playerCount > 0
  {
    Js.Rem(currentDealerIndex + 1, playerCount)
  }

  /** `getDealerForRound(initialDealerIndex, roundNumber, playerCount)`. */
  function GetDealerForRound(initialDealerIndex: int, roundNumber: int, playerCount: int): (r: int)
    requires playerCount > 0
  {
    var rotations := roundNumber - 1;
    Js.Rem(initialDealerIndex + rotations, playerCount)
  }

  /** Euclid's division is unique: a quotient and a remainder in range determine `a % n`. */
  lemma ModUnique(a: int, n: int, q: int, m: int)
    requires n > 0 && a == q * n + m && 0 <= m < n
    ensures a % n == m
  {
    var q0, m0 := a / n, a % n;
    assert a == q0 * n + m0;
    assert (q0 - q) * n == m - m0;
    if q0 > q {
      MulAtLeast(q0 - q, n);
    } else if q0 < q {
      MulAtLeast(q - q0, n);
    }
  }

  lemma {:induction false} MulAtLeast(k: int, n: int)
    requires k >= 1 && n >= 0
    ensures k * n >= n
    decreases k
  {
    if k > 1 {
      MulAtLeast(k - 1, n);
      assert k * n == (k - 1) * n + n;
    }
  }

  /** Two numbers less than `n` apart, in either order, have different remainders. */
  lemma ModDistinct(a: int, d: int, n: int)
    requires n > 0 && 0 < d < n
    ensures (a + d) % n != a % n
  {
    var q, m := a / n, a % n;
    assert a == q * n + m;
    if m + d < n {
      ModUnique(a + d, n, q, m + d);
    } else {
      ModUnique(a + d, n, q + 1, m + d - n);
    }
  }

  /**
   * From a seat in range the next dealer is the next seat clockwise, wrapping from the last
   * seat to seat 0; from any seat at or after 0 the result is a seat in range.
   */
  lemma NextDealerClockwise(currentDealerIndex: int, playerCount: int)
    requires playerCount > 0 && currentDealerIndex >= 0
    ensures 0 <= GetNextDealerIndex(currentDealerIndex, playerCount) < playerCount
    ensures currentDealerIndex < playerCount ==>
      GetNextDealerIndex(currentDealerIndex, playerCount)
        == if currentDealerIndex == playerCount - 1 then 0 else currentDealerIndex + 1
  {
    if currentDealerIndex < playerCount {
      if currentDealerIndex == playerCount - 1 {
        ModUnique(currentDealerIndex + 1, playerCount, 1, 0);
      } else {
        ModUnique(currentDealerIndex + 1, playerCount, 0, currentDealerIndex + 1);
      }
    }
  }

  /** The first round is dealt by the chosen dealer, and every round's dealer is a seat. */
  lemma DealerForRoundInRange(initialDealerIndex: int, roundNumber: int, playerCount: int)
    requires playerCount > 0 && 0 <= initialDealerIndex < playerCount && roundNumber >= 1
    ensures 0 <= GetDealerForRound(initialDealerIndex, roundNumber, playerCount) < playerCount
    ensures roundNumber == 1 ==> GetDealerForRound(initialDealerIndex, roundNumber, playerCount) == initialDealerIndex
  {
    if roundNumber == 1 {
      ModUnique(initialDealerIndex, playerCount, 0, initialDealerIndex);
    }
  }

  /** Each round's dealer is the next dealer after the previous round's dealer. */
  lemma DealerRecurrence(initialDealerIndex: int, roundNumber: int, playerCount: int)
    requires playerCount > 0 && initialDealerIndex >= 0 && roundNumber >= 1
    ensures GetDealerForRound(initialDealerIndex, roundNumber + 1, playerCount)
      == GetNextDealerIndex(GetDealerForRound(initialDealerIndex, roundNumber, playerCount), playerCount)
  {
    var a := initialDealerIndex + roundNumber - 1;
    var q, m := a / playerCount, a % playerCount;
    assert a == q * playerCount + m;
    if m + 1 < playerCount {
      ModUnique(a + 1, playerCount, q, m + 1);
      ModUnique(m + 1, playerCount, 0, m + 1);
    } else {
      ModUnique(a + 1, playerCount, q + 1, 0);
      ModUnique(m + 1, playerCount, 1, 0);
    }
  }

  /**
   * The deal comes back to the same seat after exactly `playerCount` rounds and not before:
   * in any `playerCount` consecutive rounds every seat deals once.
   */
  lemma DealerPeriod(initialDealerIndex: int, roundNumber: int, later: int, playerCount: int)
    requires playerCount > 0 && initialDealerIndex >= 0 && roundNumber >= 1
    ensures GetDealerForRound(initialDealerIndex, roundNumber + playerCount, playerCount)
      == GetDealerForRound(initialDealerIndex, roundNumber, playerCount)
    ensures roundNumber < later < roundNumber + playerCount ==>
      GetDealerForRound(initialDealerIndex, later, playerCount)
        != GetDealerForRound(initialDealerIndex, roundNumber, playerCount)
  {
    var a := initialDealerIndex + roundNumber - 1;
    var q, m := a / playerCount, a % playerCount;
    assert a == q * playerCount + m;
    ModUnique(a + playerCount, playerCount, q + 1, m);
    if roundNumber < later < roundNumber + playerCount {
      ModDistinct(a, later - roundNumber, playerCount);
      assert initialDealerIndex + later - 1 == a + (later - roundNumber);
    }
  }
}

/**
 * The player-roles screen: the seating order is rearranged by dragging one player over another,
 * and one seat is picked as the first dealer. The screen keeps its own copy of the roster, the
 * selected dealer seat and the seat being dragged; submitting writes the order and the dealer to
 * the store.
 */
module PlayerRolesSetup {
  import opened Wrappers
  import opened GameTypes
  import GameFlow
  import GameStore

  /** `s` without entry `i`: `splice(i, 1)`. */
  function Removed<T>(s: seq<T>, i: int): (r: seq<T>)
    requires 0 <= i < |s|
    ensures |r| == |s| - 1
    ensures forall q :: 0 <= q < |r| ==> r[q] == if q < i then s[q] else s[q + 1]
  {
    s[..i] + s[i + 1..]
  }

  /** `s` with `x` inserted before entry `i`: `splice(i, 0, x)`. */
  function InsertedAt<T>(s: seq<T>, i: int, x: T): (r: seq<T>)
    requires 0 <= i <= |s|
    ensures |r| == |s| + 1
    ensures forall q :: 0 <= q < |r| ==> r[q] == if q < i then s[q] else if q == i then x else s[q - 1]
  {
    s[..i] + [x] + s[i..]
  }

  /** The roster after the player at `from` is taken out and put back in at `to`. */
  function Moved<T>(s: seq<T>, from: int, to: int): (r: seq<T>)
    requires 0 <= from < |s| && 0 <= to < |s|
  {
    InsertedAt(Removed(s, from), to, s[from])
  }

  /**
   * Where the player at seat `p` sits after the move from `from` to `to`: the dragged player
   * goes to `to`, and the players between the two seats shift by one toward `from`.
   */
  function Follow(p: int, from: int, to: int): (r: int)
  {
    if from == p then to
    else if from < p && to >= p then p - 1
    else if from > p && to <= p then p + 1
    else p
  }

  /** Taking entry `i` out leaves the other entries. */
  lemma RemovedMultiset<T>(s: seq<T>, i: int)
    requires 0 <= i < |s|
    ensures multiset(Removed(s, i)) + multiset{s[i]} == multiset(s)
  {
    assert s == s[..i] + ([s[i]] + s[i + 1..]);
  }

  /** Inserting `x` adds exactly `x`. */
  lemma InsertedAtMultiset<T>(s: seq<T>, i: int, x: T)
    requires 0 <= i <= |s|
    ensures multiset(InsertedAt(s, i, x)) == multiset(s) + multiset{x}
  {
    assert s == s[..i] + s[i..];
    assert InsertedAt(s, i, x) == s[..i] + ([x] + s[i..]);
  }

  /** A move rearranges the roster: the same players, each as often as before. */
  lemma MovedPermutation<T>(s: seq<T>, from: int, to: int)
    requires 0 <= from < |s| && 0 <= to < |s|
    ensures |Moved(s, from, to)| == |s|
    ensures multiset(Moved(s, from, to)) == multiset(s)
  {
    RemovedMultiset(s, from);
    InsertedAtMultiset(Removed(s, from), to, s[from]);
  }

  /**
   * Every player lands on the seat `Follow` gives, the dragged one on `to`; so `Follow` tracks a
   * player through the move, and two seats never land on one.
   */
  lemma FollowTracksPlayer<T>(s: seq<T>, from: int, to: int, p: int)
    requires 0 <= from < |s| && 0 <= to < |s| && 0 <= p < |s|
    ensures 0 <= Follow(p, from, to) < |s|
    ensures Moved(s, from, to)[Follow(p, from, to)] == s[p]
    ensures Moved(s, from, to)[to] == s[from]
  {
  }

  /** Distinct seats land on distinct seats. */
  lemma FollowInjective(from: int, to: int, p: int, q: int)
    requires p != q
    ensures Follow(p, from, to) != Follow(q, from, to)
  {
  }

  class RolesScreen {
    var players: seq<Player>
    var selectedDealer: int
    var draggedIndex: Option<int>

    /** The screen opens on the current game's roster (or none), seat 0 as dealer, nothing dragged. */
    constructor (game: Option<Game>)
      ensures players == (if game.Some? then game.value.players else [])
      ensures selectedDealer == 0 && draggedIndex == None
    {
      players := if game.Some? then game.value.players else [];
      selectedDealer := 0;
      draggedIndex := None;
    }

    /** The effect run when the store's roster changes: take it over and select seat 0 again. */
    method PlayersChanged(game: Option<Game>)
      modifies this
      ensures game.Some? ==> players == game.value.players && selectedDealer == 0
      ensures game.None? ==> players == old(players) && selectedDealer == old(selectedDealer)
      ensures draggedIndex == old(draggedIndex)
    {
      if game.Some? {
        players := game.value.players;
        selectedDealer := 0;
      }
    }

    /** `handleDragStart(index)`. */
    method HandleDragStart(index: int)
      modifies this
      ensures draggedIndex == Some(index)
      ensures players == old(players) && selectedDealer == old(selectedDealer)
    {
      draggedIndex := Some(index);
    }

    /** Tapping a seat selects it as the dealer. */
    method SelectDealer(index: int)
      modifies this
      ensures selectedDealer == index
      ensures players == old(players) && draggedIndex == old(draggedIndex)
    {
      selectedDealer := index;
    }

    /**
     * `handleDragOver(index)`: with nothing dragged, or over the dragged seat itself, nothing
     * changes. Otherwise the dragged player moves to `index`, the drag continues from there, and
     * the selected dealer seat follows the player it selected.
     */
    method HandleDragOver(index: int)
      modifies this
      requires draggedIndex.Some? && draggedIndex.value != index ==>
        0 <= draggedIndex.value < |players| && 0 <= index < |players|
      ensures old(draggedIndex).None? || old(draggedIndex) == Some(index) ==>
        players == old(players) && selectedDealer == old(selectedDealer) && draggedIndex == old(draggedIndex)
      ensures old(draggedIndex).Some? && old(draggedIndex) != Some(index) ==>
        && players == Moved(old(players), old(draggedIndex).value, index)
        && selectedDealer == Follow(old(selectedDealer), old(draggedIndex).value, index)
        && draggedIndex == Some(index)
        && players[index] == old(players)[old(draggedIndex).value]
        && (0 <= old(selectedDealer) < |old(players)| ==>
              0 <= selectedDealer < |players| && players[selectedDealer] == old(players)[old(selectedDealer)])
    {
      if draggedIndex.None? || draggedIndex.value == index {
        return;
      }
      var from := draggedIndex.value;
      var newPlayers := players;
      var draggedPlayer := newPlayers[from];
      newPlayers := Removed(newPlayers, from);
      newPlayers := InsertedAt(newPlayers, index, draggedPlayer);
      FollowTracksPlayer(players, from, index, from);
      if 0 <= selectedDealer < |players| {
        FollowTracksPlayer(players, from, index, selectedDealer);
      }
      players := newPlayers;
      if from == selectedDealer {
        selectedDealer := index;
      } else if from < selectedDealer && index >= selectedDealer {
        selectedDealer := selectedDealer - 1;
      } else if from > selectedDealer && index <= selectedDealer {
        selectedDealer := selectedDealer + 1;
      }
      draggedIndex := Some(index);
    }

    /** `handleDragEnd()`. */
    method HandleDragEnd()
      modifies this
      ensures draggedIndex == None
      ensures players == old(players) && selectedDealer == old(selectedDealer)
    {
      draggedIndex := None;
    }

    /**
     * `handleSubmit()`: the store takes the screen's seating order (renumbered), then the
     * selected seat as the first dealer, then shows the stakes setup.
     */
    method HandleSubmit(store: GameStore.Store)
      modifies store
      ensures store.currentGame == if old(store.currentGame).None? then None
        else Some(GameFlow.WithInitialDealer(GameFlow.WithSeatingOrder(old(store.currentGame).value, players), selectedDealer))
      ensures store.currentView == StakesSetup
      ensures store.error == old(store.error) && store.hasUnsavedChanges == old(store.hasUnsavedChanges)
      ensures store.saved == old(store.saved)
    {
      store.UpdateSeatingOrder(players);
      store.SetInitialDealer(selectedDealer);
      store.SetView(StakesSetup);
    }
  }
}

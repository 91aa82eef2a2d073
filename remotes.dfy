/**
 * The collection of remote players' sprites (`otherPlayers`) and what the four inbound
 * socket messages do to it, stated over sequences in the collection's order.
 * `WorldScene.Scene` performs these changes in place and is proved to agree with them.
 */
module Remotes {
  import opened Wrappers

  /** One player's record as the server sends it. */
  datatype PlayerInfo = PlayerInfo(playerId: string, x: int, y: int, flipX: bool)

  /** A remote player's sprite: its id, position and horizontal flip (the tint is not modelled). */
  datatype Remote = Remote(playerId: string, x: int, y: int, flipX: bool)

  /**
   * The sprite `addOtherPlayers` creates: id and position come from the record; the
   * record's flip is not applied, so a new sprite starts unflipped.
   */
  function Spawn(info: PlayerInfo): Remote
  {
    Remote(info.playerId, info.x, info.y, false)
  }

  /**
   * The sprites a `currentPlayers` snapshot adds, in snapshot order: one for every entry
   * that does not name this client, none for the entries that do.
   */
  function Joined(players: seq<PlayerInfo>, selfId: string): (r: seq<Remote>)
    ensures |r| <= |players|
  {
    if players == [] then []
    else
      var last := players[|players| - 1];
      Joined(players[..|players| - 1], selfId) + (if last.playerId == selfId then [] else [Spawn(last)])
  }

  /**
   * The position of the last snapshot entry that names this client, if any: the local
   * player is created once per such entry, so the last one is where it ends up.
   */
  function LastSelf(players: seq<PlayerInfo>, selfId: string): (r: Option<nat>)
    ensures r.Some? ==> r.value < |players| && players[r.value].playerId == selfId
  {
    if players == [] then None
    else if players[|players| - 1].playerId == selfId then Some(|players| - 1)
    else LastSelf(players[..|players| - 1], selfId)
  }

  /** No entry after the one `LastSelf` picks names this client; with none picked, no entry does. */
  lemma {:induction false} LastSelfIsLast(players: seq<PlayerInfo>, selfId: string)
    ensures var r := LastSelf(players, selfId);
            forall k :: 0 <= k < |players| && (r.None? || r.value < k) ==> players[k].playerId != selfId
    decreases |players|
  {
    if players != [] && players[|players| - 1].playerId != selfId {
      LastSelfIsLast(players[..|players| - 1], selfId);
    }
  }

  /**
   * The collection after a `disconnect` for `playerId`: exactly the sprites with another
   * id remain, in their order. Nothing is removed exactly when no sprite has that id.
   */
  function Without(s: seq<Remote>, playerId: string): (r: seq<Remote>)
    ensures |r| <= |s|
  {
    if s == [] then []
    else (if s[0].playerId == playerId then [] else [s[0]]) + Without(s[1..], playerId)
  }

  /** One sprite after a `playerMoved` record: moved and re-flipped when the ids match. */
  function Moved(e: Remote, info: PlayerInfo): Remote
  {
    if e.playerId == info.playerId then e.(x := info.x, y := info.y, flipX := info.flipX) else e
  }

  /**
   * The collection after a `playerMoved` record: same length and ids; the sprites with the
   * record's id take its position and flip, every other sprite is as it was.
   */
  function ApplyMove(s: seq<Remote>, info: PlayerInfo): (r: seq<Remote>)
    ensures |r| == |s|
    ensures forall k :: 0 <= k < |s| ==> r[k].playerId == s[k].playerId
    ensures forall k :: 0 <= k < |s| && s[k].playerId != info.playerId ==> r[k] == s[k]
    ensures forall k :: 0 <= k < |s| && s[k].playerId == info.playerId ==>
              r[k] == Remote(info.playerId, info.x, info.y, info.flipX)
  {
    if s == [] then [] else [Moved(s[0], info)] + ApplyMove(s[1..], info)
  }

  /**
   * The snapshot's sprites are exactly those of the entries that do not name this client,
   * none of them flipped; with no entry naming this client there is one per entry.
   */
  lemma {:induction false} JoinedExact(players: seq<PlayerInfo>, selfId: string)
    ensures forall e :: e in Joined(players, selfId) <==> exists p :: p in players && p.playerId != selfId && e == Spawn(p)
    ensures forall e :: e in Joined(players, selfId) ==> e.playerId != selfId && !e.flipX
    ensures (forall p :: p in players ==> p.playerId != selfId) ==> |Joined(players, selfId)| == |players|
    decreases |players|
  {
    if players != [] {
      var init := players[..|players| - 1];
      var last := players[|players| - 1];
      JoinedExact(init, selfId);
      assert players == init + [last];
      forall p | p in init ensures p in players {}
    }
  }

  /** Exactly the sprites with another id survive a `disconnect`; none is removed exactly when the id is unknown. */
  lemma {:induction false} WithoutExact(s: seq<Remote>, playerId: string)
    ensures forall e :: e in Without(s, playerId) <==> e in s && e.playerId != playerId
    ensures |Without(s, playerId)| == |s| <==> forall e :: e in s ==> e.playerId != playerId
    decreases |s|
  {
    if s != [] {
      WithoutExact(s[1..], playerId);
      assert s == [s[0]] + s[1..];
    }
  }

  /** A snapshot one entry longer adds at most that entry's sprite. */
  lemma JoinedSnoc(players: seq<PlayerInfo>, p: PlayerInfo, selfId: string)
    ensures Joined(players + [p], selfId)
         == Joined(players, selfId) + (if p.playerId == selfId then [] else [Spawn(p)])
    ensures LastSelf(players + [p], selfId) == if p.playerId == selfId then Some(|players|) else LastSelf(players, selfId)
  {
    assert (players + [p])[..|players|] == players;
  }

  /**
   * One step of removing in place: at slot `i`, a matching sprite is cut out and the slot
   * is looked at again; any other sprite is kept and the walk moves on. Either way the
   * final result stays the same.
   */
  lemma RemoveInPlaceStep(s: seq<Remote>, i: nat, playerId: string)
    requires i < |s|
    ensures s[i].playerId == playerId ==>
              var t := s[..i] + s[i + 1..];
              |t| == |s| - 1 && s[..i] + Without(s[i..], playerId) == t[..i] + Without(t[i..], playerId)
    ensures s[i].playerId != playerId ==>
              s[..i] + Without(s[i..], playerId) == s[..i + 1] + Without(s[i + 1..], playerId)
  {
    assert s[i..][0] == s[i] && s[i..][1..] == s[i + 1..];
    var t := s[..i] + s[i + 1..];
    assert t[..i] == s[..i] && t[i..] == s[i + 1..];
    assert s[..i + 1] == s[..i] + [s[i]];
  }

  /** Removal distributes over concatenation. */
  lemma {:induction false} WithoutConcat(a: seq<Remote>, b: seq<Remote>, playerId: string)
    ensures Without(a + b, playerId) == Without(a, playerId) + Without(b, playerId)
    decreases |a|
  {
    if a == [] {
      assert a + b == b;
    } else {
      var head := if a[0].playerId == playerId then [] else [a[0]];
      assert (a + b)[0] == a[0] && (a + b)[1..] == a[1..] + b;
      calc {
        Without(a + b, playerId);
        head + Without(a[1..] + b, playerId);
        { WithoutConcat(a[1..], b, playerId); }
        head + (Without(a[1..], playerId) + Without(b, playerId));
        (head + Without(a[1..], playerId)) + Without(b, playerId);
        Without(a, playerId) + Without(b, playerId);
      }
    }
  }

  /** A second `disconnect` for the same id changes nothing. */
  lemma {:induction false} LeaveIsIdempotent(s: seq<Remote>, playerId: string)
    ensures Without(Without(s, playerId), playerId) == Without(s, playerId)
    decreases |s|
  {
    if s != [] {
      LeaveIsIdempotent(s[1..], playerId);
      var head := if s[0].playerId == playerId then [] else [s[0]];
      WithoutConcat(head, Without(s[1..], playerId), playerId);
    }
  }

  /** A `disconnect` for an id no sprite has changes nothing. */
  lemma {:induction false} LeaveUnknownIsNoOp(s: seq<Remote>, playerId: string)
    requires forall e :: e in s ==> e.playerId != playerId
    ensures Without(s, playerId) == s
    decreases |s|
  {
    if s != [] {
      assert s[0] in s;
      LeaveUnknownIsNoOp(s[1..], playerId);
      assert [s[0]] + s[1..] == s;
    }
  }

  /** A `playerMoved` for an id no sprite has changes nothing. */
  lemma MoveUnknownIsNoOp(s: seq<Remote>, info: PlayerInfo)
    requires forall e :: e in s ==> e.playerId != info.playerId
    ensures ApplyMove(s, info) == s
  {
    forall k | 0 <= k < |s| ensures ApplyMove(s, info)[k] == s[k] {
      assert s[k] in s;
    }
  }

  /** A player who joins and then leaves leaves the rest of the collection as it was. */
  lemma JoinThenLeave(s: seq<Remote>, info: PlayerInfo)
    ensures Without(s + [Spawn(info)], info.playerId) == Without(s, info.playerId)
  {
    WithoutConcat(s, [Spawn(info)], info.playerId);
    assert Without([Spawn(info)], info.playerId) == [];
  }

  /** Moving a player and then removing it is the same as removing it. */
  lemma {:induction false} LeaveAfterMove(s: seq<Remote>, info: PlayerInfo)
    ensures Without(ApplyMove(s, info), info.playerId) == Without(s, info.playerId)
    decreases |s|
  {
    if s != [] {
      LeaveAfterMove(s[1..], info);
      assert ApplyMove(s, info)[1..] == ApplyMove(s[1..], info);
    }
  }

  /**
   * `disconnect` AS WRITTEN: the handler walks the live child array with `forEach` and
   * destroys matching sprites; each destroy splices the sprite out of that array, and
   * `forEach` goes on to the next index, so the sprite that slid into the freed slot is
   * never looked at. `i` is the next index visited.
   */
  function RemoveDuringForEach(s: seq<Remote>, playerId: string, i: nat): (r: seq<Remote>)
    ensures |r| <= |s|
    decreases |s| - i
  {
    if i >= |s| then s
    else if s[i].playerId == playerId then RemoveDuringForEach(s[..i] + s[i + 1..], playerId, i + 1)
    else RemoveDuringForEach(s, playerId, i + 1)
  }

  /** The handler as written never invents a sprite and never removes one with another id. */
  lemma {:induction false} AsWrittenKeepsOthers(s: seq<Remote>, playerId: string, i: nat)
    ensures forall e :: e in RemoveDuringForEach(s, playerId, i) ==> e in s
    ensures forall e :: e in s && e.playerId != playerId ==> e in RemoveDuringForEach(s, playerId, i)
    decreases |s| - i
  {
    if i < |s| {
      if s[i].playerId == playerId {
        var t := s[..i] + s[i + 1..];
        AsWrittenKeepsOthers(t, playerId, i + 1);
        assert s == s[..i] + [s[i]] + s[i + 1..];
      } else {
        AsWrittenKeepsOthers(s, playerId, i + 1);
      }
    }
  }

  /** No two neighbouring sprites carry the id. */
  predicate NoAdjacentMatches(s: seq<Remote>, playerId: string)
  {
    forall j :: 0 <= j < |s| - 1 ==> !(s[j].playerId == playerId && s[j + 1].playerId == playerId)
  }

  /**
   * The handler as written is right whenever no two neighbouring sprites carry the id:
   * the sprite it skips after a removal never needed removing.
   */
  lemma {:induction false} AsWrittenAgreesWithoutAdjacentMatches(s: seq<Remote>, playerId: string, i: nat)
    requires i <= |s| && NoAdjacentMatches(s[i..], playerId)
    ensures RemoveDuringForEach(s, playerId, i) == s[..i] + Without(s[i..], playerId)
    decreases |s| - i
  {
    if i == |s| {
      assert s[..i] == s && s[i..] == [];
    } else if s[i].playerId != playerId {
      SkipStep(s, i, playerId);
      AsWrittenAgreesWithoutAdjacentMatches(s, playerId, i + 1);
    } else if i == |s| - 1 {
      assert s[i..] == [s[i]];
      assert s[..i] + s[i + 1..] == s[..i];
    } else {
      var t := s[..i] + s[i + 1..];
      SkippedAfterRemovalStep(s, i, playerId);
      AsWrittenAgreesWithoutAdjacentMatches(t, playerId, i + 1);
    }
  }

  /** Moving past a sprite with another id. */
  lemma SkipStep(s: seq<Remote>, i: nat, playerId: string)
    requires i < |s| && s[i].playerId != playerId && NoAdjacentMatches(s[i..], playerId)
    ensures NoAdjacentMatches(s[i + 1..], playerId)
    ensures s[..i + 1] + Without(s[i + 1..], playerId) == s[..i] + Without(s[i..], playerId)
  {
    assert s[i + 1..] == s[i..][1..];
    assert s[..i + 1] == s[..i] + [s[i]];
    assert s[i..][0] == s[i];
  }

  /** Removing the sprite at `i` and passing over the one that slides into its slot. */
  lemma SkippedAfterRemovalStep(s: seq<Remote>, i: nat, playerId: string)
    requires i + 1 < |s| && s[i].playerId == playerId && NoAdjacentMatches(s[i..], playerId)
    ensures var t := s[..i] + s[i + 1..];
            i + 1 <= |t| && NoAdjacentMatches(t[i + 1..], playerId)
            && t[..i + 1] + Without(t[i + 1..], playerId) == s[..i] + Without(s[i..], playerId)
  {
    var t := s[..i] + s[i + 1..];
    assert t[i + 1..] == s[i..][2..];
    assert s[i..][1] == s[i + 1] && s[i + 1].playerId != playerId;
    assert t[..i + 1] == s[..i] + [s[i + 1]];
    assert s[i + 1..][0] == s[i + 1] && s[i + 1..][1..] == s[i + 2..];
    assert s[i..][0] == s[i] && s[i..][1..] == s[i + 1..];
  }

  /** So a leave for a player with at most one sprite in each run of neighbours removes all of its sprites. */
  lemma AsWrittenCorrectWithoutNeighbours(s: seq<Remote>, playerId: string)
    requires NoAdjacentMatches(s, playerId)
    ensures RemoveDuringForEach(s, playerId, 0) == Without(s, playerId)
  {
    assert s[0..] == s && s[..0] == [];
    AsWrittenAgreesWithoutAdjacentMatches(s, playerId, 0);
  }

  /**
   * The discrepancy: with two sprites for the same id next to each other (one snapshot
   * entry and one `newPlayer` for that id, say), the handler as written leaves one of
   * them behind, while `Without` removes both.
   */
  lemma AsWrittenLeavesDuplicate()
    ensures var a := Remote("A", 0, 0, false);
            RemoveDuringForEach([a, a], "A", 0) == [a] && Without([a, a], "A") == []
  {
    var a := Remote("A", 0, 0, false);
    assert [a, a][..0] + [a, a][1..] == [a];
  }
}

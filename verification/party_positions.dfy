/** The load-time fix-up of party positions for parties larger than the
    game's native party size.

    When a saved location is loaded, the game only knows positions for its
    native number of party members. Every character beyond that number is
    placed on the position of the native member whose slot is its index
    modulo the party size: with a native size of 4, characters 4, 5, 6, 7
    stand where characters 0, 1, 2, 3 stand, character 8 where character 0
    stands, and so on. */
module PartyPositions {

  /** A grid position, the engine's `int3`. */
  datatype Position = Position(x: int, y: int, z: int)

  /** A party member. The host character object is reduced to its identity
      and the one field the patch writes. Members are values: the model
      describes a party of distinct characters, in which writing one slot
      cannot change another. */
  datatype PartyCharacter = PartyCharacter(id: nat, position: Position)

  /** The slot whose position the character at `idx` copies. It lies among
      the native slots, which the pass never writes. */
  function SourceSlot(idx: nat, partySize: nat): (slot: nat)
    requires 0 < partySize <= idx
    ensures slot < partySize
    ensures slot <= idx - partySize
  {
    idx % partySize
  }

  /** The party after the fix-up, as a closed form: the first `partySize`
      members as they were, every later member with its own identity and
      the position of member `i % partySize`. */
  function Recalculated(party: seq<PartyCharacter>, partySize: nat): seq<PartyCharacter>
    requires partySize > 0
  {
    seq(|party|, i requires 0 <= i < |party| =>
      if i < partySize then party[i]
      else party[i].(position := party[SourceSlot(i, partySize)].position))
  }

  /** A party in which every extra member already stands on the position of
      its native counterpart. */
  ghost predicate Aligned(party: seq<PartyCharacter>, partySize: nat)
    requires partySize > 0
  {
    forall i :: partySize <= i < |party| ==> party[i].position == party[i % partySize].position
  }

  /** The fix-up pass itself: walks the extra members in index order and
      overwrites each one's position with a fresh copy of the position of
      the member at `idx % partySize`, reading from the list it is
      updating. */
  method UnlockCharactersForLoading(party: seq<PartyCharacter>, partySize: nat)
    returns (result: seq<PartyCharacter>)
    requires partySize > 0
    ensures |result| == |party|
    ensures forall i :: 0 <= i < |party| ==> result[i].id == party[i].id
    ensures forall i :: 0 <= i < |party| && i < partySize ==> result[i] == party[i]
    ensures forall i :: partySize <= i < |party| ==>
              result[i].position == party[i % partySize].position
    ensures result == Recalculated(party, partySize)
  {
    result := party;
    var idx := partySize;
    while idx < |result|
      invariant partySize <= idx
      invariant |result| == |party|
      invariant forall i :: 0 <= i < |result| ==> result[i].id == party[i].id
      invariant forall i :: 0 <= i < |result| && (i < partySize || idx <= i) ==> result[i] == party[i]
      invariant forall i :: partySize <= i < idx && i < |result| ==>
                  result[i].position == party[i % partySize].position
    {
      var position := result[SourceSlot(idx, partySize)].position;
      result := result[idx := result[idx].(position := Position(position.x, position.y, position.z))];
      idx := idx + 1;
    }
  }

  /** A party no larger than the native size is left exactly as it was. */
  lemma ShortPartyUnchanged(party: seq<PartyCharacter>, partySize: nat)
    requires 0 < partySize && |party| <= partySize
    ensures Recalculated(party, partySize) == party
  {
  }

  /** A party is a fixed point of the pass exactly when it is aligned. */
  lemma {:induction false} FixedPointIffAligned(party: seq<PartyCharacter>, partySize: nat)
    requires partySize > 0
    ensures Recalculated(party, partySize) == party <==> Aligned(party, partySize)
  {
    var r := Recalculated(party, partySize);
    if Aligned(party, partySize) {
      forall i | 0 <= i < |party|
        ensures r[i] == party[i]
      {
        if i >= partySize {
          assert party[i].position == party[i % partySize].position;
        }
      }
    }
    if r == party {
      forall i | partySize <= i < |party|
        ensures party[i].position == party[i % partySize].position
      {
        assert r[i].position == party[SourceSlot(i, partySize)].position;
      }
    }
  }

  /** Whatever the starting positions, the pass leaves the party aligned. */
  lemma RecalculatedIsAligned(party: seq<PartyCharacter>, partySize: nat)
    requires partySize > 0
    ensures Aligned(Recalculated(party, partySize), partySize)
  {
    var r := Recalculated(party, partySize);
    forall i | partySize <= i < |r|
      ensures r[i].position == r[i % partySize].position
    {
      assert r[i % partySize] == party[i % partySize];
    }
  }

  /** Running the pass a second time changes nothing. */
  lemma Idempotent(party: seq<PartyCharacter>, partySize: nat)
    requires partySize > 0
    ensures Recalculated(Recalculated(party, partySize), partySize) == Recalculated(party, partySize)
  {
    RecalculatedIsAligned(party, partySize);
    FixedPointIffAligned(Recalculated(party, partySize), partySize);
  }
}

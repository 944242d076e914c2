/** The plate history store (src/utils/storage.js): one storage slot,
    under the fixed key `LICENSE_PLATE_HISTORY`, holding the list of saved plate records newest first.
    Storage I/O becomes a field of the store plus fault parameters, and
    `Date.now()` becomes clock readings passed in. */
module Storage {
  import opened Wrappers
  import opened JsText

  datatype Plate = Plate(id: string, plateNumber: string, imageUri: string, timestamp: nat)

  /** The error a failing storage call rejects with. */
  datatype IoFault = IoFault(message: string)

  /** The list without the records whose id is `id`: `plates.filter(p => p.id !== id)`. */
  function WithoutId(plates: seq<Plate>, id: string): (r: seq<Plate>)
    ensures |r| <= |plates|
    ensures forall i :: 0 <= i < |r| ==> r[i].id != id
    ensures forall p :: multiset(r)[p] == if p.id == id then 0 else multiset(plates)[p]
  {
    if plates == [] then []
    else
      assert plates == [plates[0]] + plates[1..];
      if plates[0].id == id then WithoutId(plates[1..], id)
      else [plates[0]] + WithoutId(plates[1..], id)
  }

  /** Filtering keeps relative order: it distributes over concatenation. */
  lemma {:induction false} WithoutIdAppend(a: seq<Plate>, b: seq<Plate>, id: string)
    ensures WithoutId(a + b, id) == WithoutId(a, id) + WithoutId(b, id)
  {
    if a == [] {
      assert a + b == b;
    } else {
      assert (a + b)[1..] == a[1..] + b;
      WithoutIdAppend(a[1..], b, id);
    }
  }

  /** Deleting an id no record carries leaves the list unchanged. */
  lemma {:induction false} WithoutAbsentId(plates: seq<Plate>, id: string)
    requires forall i :: 0 <= i < |plates| ==> plates[i].id != id
    ensures WithoutId(plates, id) == plates
  {
    if plates != [] {
      WithoutAbsentId(plates[1..], id);
    }
  }

  /** Deleting the same id twice is deleting it once. */
  lemma WithoutIdIdempotent(plates: seq<Plate>, id: string)
    ensures WithoutId(WithoutId(plates, id), id) == WithoutId(plates, id)
  {
    WithoutAbsentId(WithoutId(plates, id), id);
  }

  /** Deletions of different ids commute. */
  lemma {:induction false} WithoutIdCommutes(plates: seq<Plate>, id1: string, id2: string)
    ensures WithoutId(WithoutId(plates, id1), id2) == WithoutId(WithoutId(plates, id2), id1)
  {
    if plates != [] {
      WithoutIdCommutes(plates[1..], id1, id2);
    }
  }

  /** Deleting the id of a just-saved record removes it and every older
      record sharing that id; when none does, the previous list comes back. */
  lemma SaveThenDelete(newPlate: Plate, plates: seq<Plate>)
    ensures WithoutId([newPlate] + plates, newPlate.id) == WithoutId(plates, newPlate.id)
    ensures (forall i :: 0 <= i < |plates| ==> plates[i].id != newPlate.id) ==>
              WithoutId([newPlate] + plates, newPlate.id) == plates
  {
    assert ([newPlate] + plates)[1..] == plates;
    if forall i :: 0 <= i < |plates| ==> plates[i].id != newPlate.id {
      WithoutAbsentId(plates, newPlate.id);
    }
  }

  /** Ids are clock readings in decimal and are not checked for uniqueness:
      records saved at different readings get different ids, while two
      records saved in the same millisecond share one, and a single delete
      of that id removes both. */
  lemma IdsCollideOnSameMillisecond(p1: Plate, p2: Plate, clock1: nat, clock2: nat, rest: seq<Plate>)
    requires p1.id == NatToString(clock1) && p2.id == NatToString(clock2)
    ensures p1.id == p2.id <==> clock1 == clock2
    ensures clock1 == clock2 ==>
              p1 !in WithoutId([p2, p1] + rest, p1.id) && p2 !in WithoutId([p2, p1] + rest, p1.id)
  {
    NatToStringInjective(clock1, clock2);
    if clock1 == clock2 {
      var r := WithoutId([p2, p1] + rest, p1.id);
      assert multiset(r)[p1] == 0 && multiset(r)[p2] == 0;
    }
  }

  /** The AsyncStorage slot holding the history. */
  class HistoryStore {
    /** The slot's value: `None` when nothing is stored under the key. */
    var slot: Option<seq<Plate>>

    constructor ()
      ensures slot == None
    {
      slot := None;
    }

    /** The list a successful read yields. */
    function Stored(): seq<Plate>
      reads this
    {
      if slot.Some? then slot.value else []
    }

    /** `getLicensePlates()`: the stored list, or `[]` when nothing is stored
        or when reading or parsing fails (`readFault`), which it swallows. */
    method GetLicensePlates(readFault: bool) returns (plates: seq<Plate>)
      ensures readFault || slot.None? ==> plates == []
      ensures !readFault && slot.Some? ==> plates == slot.value
    {
      if readFault {
        return [];
      }
      plates := if slot.Some? then slot.value else [];
    }

    /** `saveLicensePlate(plateNumber, imageUri)`. `idClock` and `stampClock`
        are the two `Date.now()` readings (for the id and for the timestamp);
        `writeFault` makes `setItem` reject, which leaves the slot as it was
        and propagates. The previous list is whatever the swallowing read
        yields, so a read fault makes the new record replace the history. */
    method SaveLicensePlate(plateNumber: string, imageUri: string, idClock: nat, stampClock: nat,
                            readFault: bool, writeFault: Option<IoFault>)
      returns (result: Result<Plate, IoFault>)
      modifies this
      ensures writeFault.Some? ==> result == Failure(writeFault.value) && slot == old(slot)
      ensures writeFault.None? ==>
                result.Success? &&
                result.value == Plate(NatToString(idClock), plateNumber, imageUri, stampClock) &&
                slot == Some([result.value] + (if readFault then [] else old(Stored())))
      ensures writeFault.None? ==> |Stored()| == 1 + (if readFault then 0 else |old(Stored())|)
      ensures writeFault.None? ==> Stored()[0] == result.value && Stored()[1..] == (if readFault then [] else old(Stored()))
    {
      var plates := GetLicensePlates(readFault);
      var newPlate := Plate(NatToString(idClock), plateNumber, imageUri, stampClock);
      var updated := [newPlate] + plates;
      if writeFault.Some? {
        return Failure(writeFault.value);
      }
      slot := Some(updated);
      result := Success(newPlate);
    }

    /** `deleteLicensePlate(id)`: writes back the list without the records
        carrying `id`. Even when nothing matches, or nothing was stored, a
        list is written; a read fault makes that list empty. */
    method DeleteLicensePlate(id: string, readFault: bool, writeFault: Option<IoFault>)
      returns (result: Result<(), IoFault>)
      modifies this
      ensures writeFault.Some? ==> result == Failure(writeFault.value) && slot == old(slot)
      ensures writeFault.None? ==>
                result == Success(()) &&
                slot == Some(WithoutId(if readFault then [] else old(Stored()), id))
    {
      var plates := GetLicensePlates(readFault);
      var updated := WithoutId(plates, id);
      if writeFault.Some? {
        return Failure(writeFault.value);
      }
      slot := Some(updated);
      result := Success(());
    }

    /** `clearLicensePlates()`: removes the slot, so the next read yields `[]`. */
    method ClearLicensePlates(removeFault: Option<IoFault>) returns (result: Result<(), IoFault>)
      modifies this
      ensures removeFault.Some? ==> result == Failure(removeFault.value) && slot == old(slot)
      ensures removeFault.None? ==> result == Success(()) && slot == None && Stored() == []
    {
      if removeFault.Some? {
        return Failure(removeFault.value);
      }
      slot := None;
      result := Success(());
    }
  }
}

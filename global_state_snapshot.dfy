/** An earlier `AppState` (a backup copy kept in `enc_temp_folder`): the same
    slot allocator, without `resetVM`. */
module GlobalStateSnapshot {
  import StringMap

  class AppState {
    var vmMemory: seq<real>
    var varTable: map<string, int>
    var hiddenChunks: StringMap.Entries
    var hiddenCounter: int

    /** Every stored id addresses a slot, and no two names share one. */
    ghost predicate Valid()
      reads this
    {
      && (forall n :: n in varTable ==> 0 <= varTable[n] < |vmMemory|)
      && (forall a, b :: a in varTable && b in varTable && a != b ==> varTable[a] != varTable[b])
    }

    constructor ()
      ensures Valid()
      ensures vmMemory == [] && varTable == map[]
      ensures hiddenChunks == [] && hiddenCounter == 0
    {
      vmMemory, varTable := [], map[];
      hiddenChunks, hiddenCounter := [], 0;
    }

    /** `getVarId`: a new name gets the next slot, which starts at 0; a known
        name gets its id back and nothing changes. */
    method GetVarId(name: string) returns (id: int)
      requires Valid()
      modifies this
      ensures Valid()
      ensures name in varTable && varTable[name] == id
      ensures old(name in varTable) ==>
        id == old(varTable[name]) && vmMemory == old(vmMemory) && varTable == old(varTable)
      ensures old(name !in varTable) ==>
        && id == old(|vmMemory|)
        && vmMemory == old(vmMemory) + [0.0]
        && varTable == old(varTable)[name := id]
      ensures |vmMemory| >= old(|vmMemory|) && vmMemory[..old(|vmMemory|)] == old(vmMemory)
      ensures hiddenChunks == old(hiddenChunks) && hiddenCounter == old(hiddenCounter)
    {
      if name !in varTable {
        id := |vmMemory|;
        varTable := varTable[name := id];
        vmMemory := vmMemory + [0.0];
        return;
      }
      id := varTable[name];
    }
  }
}

/** The interpreter part of `AppState`: the variable memory `vmMemory`, the
    name-to-slot table `varTable` and the table of hidden string chunks used
    by the editor's code compression. */
module GlobalState {
  import StringMap

  /** The value of the two variable fields together. */
  datatype Vars = Vars(memory: seq<real>, table: map<string, int>)

  /** The allocation invariant: the ids in the table are exactly the slots
      `0 .. |memory|-1`, and distinct names have distinct ids. */
  ghost predicate WellFormed(v: Vars) {
    && (forall n :: n in v.table ==> 0 <= v.table[n] < |v.memory|)
    && (forall i :: 0 <= i < |v.memory| ==> i in v.table.Values)
    && (forall a, b :: a in v.table && b in v.table && a != b ==> v.table[a] != v.table[b])
  }

  /** `getVarId` on values: the id of `name`, allocating the next slot,
      initialised to 0, when the name is new. */
  function AllocVar(v: Vars, name: string): (r: (Vars, int))
    ensures name in r.0.table && r.0.table[name] == r.1
    ensures name in v.table ==> r == (v, v.table[name])
    ensures name !in v.table ==>
      && r.1 == |v.memory|
      && r.0.memory == v.memory + [0.0]
      && r.0.table.Keys == v.table.Keys + {name}
      && (forall n :: n in v.table ==> r.0.table[n] == v.table[n])
  {
    if name !in v.table then
      var id := |v.memory|;
      (Vars(v.memory + [0.0], v.table[name := id]), id)
    else (v, v.table[name])
  }

  /** Allocation keeps the invariant. */
  lemma AllocVarWellFormed(v: Vars, name: string)
    requires WellFormed(v)
    ensures WellFormed(AllocVar(v, name).0)
  {
    if name !in v.table {
      var w := AllocVar(v, name).0;
      var n := |v.memory|;
      forall i | 0 <= i < n + 1 ensures i in w.table.Values {
        if i == n {
          assert w.table[name] == i;
        } else {
          assert i in v.table.Values;
          var k :| k in v.table && v.table[k] == i;
          assert w.table[k] == i;
        }
      }
      forall a, b | a in w.table && b in w.table && a != b ensures w.table[a] != w.table[b] {
        if a != name && b != name {
        } else if a == name {
          assert v.table[b] in v.table.Values;
        } else {
          assert v.table[a] in v.table.Values;
        }
      }
    }
  }

  /** A second request for the same name returns the same id and changes nothing. */
  lemma AllocVarTwice(v: Vars, name: string)
    ensures AllocVar(AllocVar(v, name).0, name) == (AllocVar(v, name).0, AllocVar(v, name).1)
  {
  }

  /** Allocation never changes the value of a slot allocated before. */
  lemma {:induction false} AllocVarKeepsSlots(v: Vars, names: seq<string>)
    ensures |AllocAll(v, names).memory| >= |v.memory|
    ensures AllocAll(v, names).memory[..|v.memory|] == v.memory
    decreases |names|
  {
    if names != [] {
      var w := AllocVar(v, names[0]).0;
      AllocVarKeepsSlots(w, names[1..]);
      assert w.memory[..|v.memory|] == v.memory;
    }
  }

  /** The state after allocating every name of `names` in order. */
  function AllocAll(v: Vars, names: seq<string>): Vars
    decreases |names|
  {
    if names == [] then v else AllocAll(AllocVar(v, names[0]).0, names[1..])
  }

  class AppState {
    var vmMemory: seq<real>
    var varTable: map<string, int>
    var hiddenChunks: StringMap.Entries
    var hiddenCounter: int

    constructor ()
      ensures vmMemory == [] && varTable == map[]
      ensures hiddenChunks == [] && hiddenCounter == 0
    {
      vmMemory, varTable := [], map[];
      hiddenChunks, hiddenCounter := [], 0;
    }

    function VarsOf(): Vars
      reads this
    {
      Vars(vmMemory, varTable)
    }

    /** `resetVM`: forgets every variable. */
    method ResetVM()
      modifies this
      ensures vmMemory == [] && varTable == map[]
      ensures WellFormed(VarsOf())
      ensures hiddenChunks == old(hiddenChunks) && hiddenCounter == old(hiddenCounter)
    {
      vmMemory := [];
      varTable := map[];
    }

    /** `getVarId`: the id of `name`, allocating a fresh slot holding 0 for a
        name not seen before. */
    method GetVarId(name: string) returns (id: int)
      modifies this
      ensures (VarsOf(), id) == AllocVar(old(VarsOf()), name)
      ensures old(WellFormed(VarsOf())) ==> WellFormed(VarsOf())
      ensures hiddenChunks == old(hiddenChunks) && hiddenCounter == old(hiddenCounter)
    {
      if WellFormed(VarsOf()) { AllocVarWellFormed(VarsOf(), name); }
      if name !in varTable {
        id := |vmMemory|;
        varTable := varTable[name := id];
        vmMemory := vmMemory + [0.0];
        return;
      }
      id := varTable[name];
    }
  }
}

/**
 * The registry of queue handles that refresh edits in place
 * (src/bull.js:100-118): handles, the list of their names, the removal of
 * a name by `filter`, the lookup of a name by `find`, and what a whole
 * round of additions and removals leaves behind.
 */
module Registry {
  import opened Names

  /** A queue adapter as the presentation layer sees it: an object that
      answers `getName()`. Its identity is its reference. */
  class Handle {
    const name: string

    constructor (name: string)
      ensures this.name == name
    {
      this.name := name;
    }
  }

  /** `queueList.map(queue => queue.getName())`. */
  function NamesOf(hs: seq<Handle>): (r: seq<string>)
    ensures |r| == |hs|
    ensures forall i :: 0 <= i < |hs| ==> r[i] == hs[i].name
  {
    if hs == [] then [] else [hs[0].name] + NamesOf(hs[1..])
  }

  /** `hs.filter(queue => queue.getName() !== key)` applied for every key of
      `keys`: the handles whose name is not in `keys`, in their order. */
  function Drop(hs: seq<Handle>, keys: seq<string>): seq<Handle> {
    if hs == [] then []
    else (if hs[0].name in keys then [] else [hs[0]]) + Drop(hs[1..], keys)
  }

  /** A handle survives the filters exactly when its name is not removed. */
  lemma {:induction false} DropMembers(hs: seq<Handle>, keys: seq<string>)
    ensures forall h :: h in Drop(hs, keys) <==> h in hs && h.name !in keys
  {
    if hs != [] {
      DropMembers(hs[1..], keys);
      assert hs == [hs[0]] + hs[1..];
    }
  }

  /** `hs.find(queue => queue.getName() === key)`: the first handle named
      `key`, at a position before which no handle carries that name. */
  function Find(hs: seq<Handle>, key: string): (h: Handle)
    requires key in NamesOf(hs)
    ensures h in hs && h.name == key
    ensures exists i :: 0 <= i < |hs| && hs[i] == h && forall j :: 0 <= j < i ==> hs[j].name != key
  {
    if hs[0].name == key then hs[0]
    else
      assert NamesOf(hs) == [hs[0].name] + NamesOf(hs[1..]);
      var h := Find(hs[1..], key);
      var i :| 0 <= i < |hs[1..]| && hs[1..][i] == h && forall j :: 0 <= j < i ==> hs[1..][j].name != key;
      assert hs[i + 1] == h && forall j :: 0 <= j < i + 1 ==> hs[j].name != key;
      h
  }

  lemma {:induction false} NamesOfAppend(a: seq<Handle>, b: seq<Handle>)
    ensures NamesOf(a + b) == NamesOf(a) + NamesOf(b)
  {
    assert |NamesOf(a + b)| == |NamesOf(a) + NamesOf(b)|;
    forall i | 0 <= i < |a + b|
      ensures NamesOf(a + b)[i] == (NamesOf(a) + NamesOf(b))[i]
    {
    }
  }

  /** Dropping handles by name drops exactly those names from the list of
      names, keeping the order of the rest. */
  lemma {:induction false} NamesOfDrop(hs: seq<Handle>, keys: seq<string>)
    ensures NamesOf(Drop(hs, keys)) == Missing(NamesOf(hs), keys)
  {
    if hs != [] {
      NamesOfDrop(hs[1..], keys);
      var head: seq<Handle> := if hs[0].name in keys then [] else [hs[0]];
      NamesOfAppend(head, Drop(hs[1..], keys));
      assert NamesOf(hs)[1..] == NamesOf(hs[1..]);
    }
  }

  /** One more `filter` for one more key. */
  lemma {:induction false} DropStep(hs: seq<Handle>, keys: seq<string>, key: string)
    ensures Drop(Drop(hs, keys), [key]) == Drop(hs, keys + [key])
  {
    if hs != [] {
      DropStep(hs[1..], keys, key);
      var head: seq<Handle> := if hs[0].name in keys then [] else [hs[0]];
      DropAppend(head, Drop(hs[1..], keys), [key]);
      assert [hs[0]][1..] == [];
    }
  }

  /** Appended handles land after the kept ones. */
  lemma {:induction false} DropAppend(a: seq<Handle>, b: seq<Handle>, keys: seq<string>)
    ensures Drop(a + b, keys) == Drop(a, keys) + Drop(b, keys)
  {
    if a != [] {
      assert (a + b)[1..] == a[1..] + b;
      DropAppend(a[1..], b, keys);
    } else {
      assert a + b == b;
    }
  }

  lemma {:induction false} DropNone(hs: seq<Handle>, keys: seq<string>)
    requires forall h :: h in hs ==> h.name !in keys
    ensures Drop(hs, keys) == hs
  {
    if hs != [] {
      DropNone(hs[1..], keys);
      assert hs == [hs[0]] + hs[1..];
    }
  }

  /** With distinct names, `find` returns the one handle of that name. */
  lemma {:induction false} FindUnique(hs: seq<Handle>, h: Handle)
    requires Distinct(NamesOf(hs)) && h in hs
    ensures h.name in NamesOf(hs) && Find(hs, h.name) == h
  {
    var i :| 0 <= i < |hs| && hs[i] == h;
    assert NamesOf(hs)[i] == h.name;
    var f := Find(hs, h.name);
    var j :| 0 <= j < |hs| && hs[j] == f;
    assert NamesOf(hs)[j] == NamesOf(hs)[i];
  }

  /** Handles appended to a list do not change which handle `find`
      returns for a name already there: `push` never changes `find`. */
  lemma {:induction false} FindAppend(hs: seq<Handle>, more: seq<Handle>, key: string)
    requires key in NamesOf(hs)
    ensures key in NamesOf(hs + more) && Find(hs + more, key) == Find(hs, key)
  {
    var all := hs + more;
    assert all[0] == hs[0] && NamesOf(all)[0] == hs[0].name;
    if hs[0].name != key {
      assert NamesOf(hs) == [hs[0].name] + NamesOf(hs[1..]);
      assert all[1..] == hs[1..] + more;
      FindAppend(hs[1..], more, key);
      assert NamesOf(all) == [hs[0].name] + NamesOf(all[1..]);
    }
  }

  /** What a successful refresh leaves in the registry: the handles of
      `reg` whose names were scanned again, in their old order, followed by
      the `added` handles, one per new name in addKeys order. */
  function Reconciled(reg: seq<Handle>, uniq: seq<string>, added: seq<Handle>): seq<Handle> {
    Drop(reg, Missing(NamesOf(reg), uniq)) + added
  }

  /** After refresh the registry holds each freshly scanned name exactly
      once; an old handle survives, unchanged, exactly when its name was
      scanned again; and the handles added are the new ones. */
  lemma {:induction false} ReconciledRegistry(reg: seq<Handle>, uniq: seq<string>, added: seq<Handle>)
    requires Distinct(NamesOf(reg)) && Distinct(uniq)
    requires NamesOf(added) == Missing(uniq, NamesOf(reg))
    ensures Distinct(NamesOf(Reconciled(reg, uniq, added)))
    ensures forall x :: x in NamesOf(Reconciled(reg, uniq, added)) <==> x in uniq
    ensures forall h :: h in reg ==> (h in Reconciled(reg, uniq, added) <==> h.name in uniq)
    ensures forall h :: h in reg ==> h !in added
  {
    var current := NamesOf(reg);
    var removeKeys := Missing(current, uniq);
    var kept := Drop(reg, removeKeys);
    NamesOfAppend(kept, added);
    NamesOfDrop(reg, removeKeys);
    DropMembers(reg, removeKeys);
    ReconciledNames(current, uniq);
    forall g | g in added
      ensures g.name !in current
    {
      var j :| 0 <= j < |added| && added[j] == g;
      assert NamesOf(added)[j] == g.name;
    }
    forall h | h in reg
      ensures h.name in current
    {
      var i :| 0 <= i < |reg| && reg[i] == h;
      assert current[i] == h.name;
    }
  }

  /** Reconciling a registry with the names it already holds changes
      nothing: both differences are empty and every handle stays. */
  lemma {:induction false} ReconcileIdempotent(reg: seq<Handle>, uniq: seq<string>)
    requires forall x :: x in NamesOf(reg) <==> x in uniq
    ensures Missing(uniq, NamesOf(reg)) == [] && Missing(NamesOf(reg), uniq) == []
    ensures Reconciled(reg, uniq, []) == reg
  {
    SameNamesNoDiff(NamesOf(reg), uniq);
    DropNone(reg, []);
  }
}

/**
 * The ID registry that `ARenderer` keeps of the objects it draws and
 * `ALighting` keeps of its lights; the two classes share the same code, so
 * one generic class stands for both. Entries and their IDs sit in two
 * index-aligned vectors; IDs come from a counter that is bumped on every
 * addition.
 */
module IdRegistry {
  import opened Base

  /** IDs strictly increase along the vector and none exceeds the counter. */
  ghost predicate IdsIssued(ids: seq<nat>, idCount: nat)
  {
    && (forall i, j :: 0 <= i < j < |ids| ==> ids[i] < ids[j])
    && (forall i :: 0 <= i < |ids| ==> 1 <= ids[i] <= idCount)
  }

  /** Removing an entry keeps the remaining IDs issued and in order. */
  lemma {:induction false} RemoveAtKeepsIssued(ids: seq<nat>, idCount: nat, p: nat)
    requires IdsIssued(ids, idCount) && p < |ids|
    ensures IdsIssued(RemoveAt(ids, p), idCount)
    ensures ids[p] !in RemoveAt(ids, p)
  {
    var r := RemoveAt(ids, p);
    forall i, j | 0 <= i < j < |r|
      ensures r[i] < r[j]
    {
      var i' := if i < p then i else i + 1;
      var j' := if j < p then j else j + 1;
      assert r[i] == ids[i'] && r[j] == ids[j'];
    }
    forall k | 0 <= k < |r|
      ensures r[k] != ids[p]
    {
      var k' := if k < p then k else k + 1;
      assert r[k] == ids[k'] && k' != p;
    }
  }

  /** A log line about the entry with the given ID: `"<noun> #<id><tail>"`. */
  function LogLine(noun: string, id: nat, tail: string): (line: string)
    ensures |line| == |noun| + 2 + |NatToString(id)| + |tail|
  {
    noun + " #" + NatToString(id) + tail
  }

  const AddedTail: string := " added."
  const RemovedTail: string := " removed."
  const MissingTail: string := " doesn't exist. Cannot remove."

  /** Log lines about different IDs, with the same noun and tail, differ. */
  lemma {:induction false} LogLinesDistinguishIds(noun: string, m: nat, n: nat, tail: string)
    requires m != n
    ensures LogLine(noun, m, tail) != LogLine(noun, n, tail)
  {
    var p := noun + " #";
    var a, b := NatToString(m), NatToString(n);
    if |a| == |b| && LogLine(noun, m, tail) == LogLine(noun, n, tail) {
      assert LogLine(noun, m, tail)[|p|..|p| + |a|] == a;
      assert LogLine(noun, n, tail)[|p|..|p| + |b|] == b;
      NatToStringInjective(m, n);
    }
  }

  class Registry<T> {
    /** What the log calls an entry: `"Renderable"` or `"Light"`. */
    const noun: string
    /** Whether destroying the owner deletes the entries still registered. */
    const deleteAll: bool
    var items: seq<T>
    var ids: seq<nat>
    var idCount: nat

    ghost predicate Valid()
      reads this
    {
      |items| == |ids| && IdsIssued(ids, idCount)
    }

    /** Empty vectors and a zero counter. */
    constructor (entryNoun: string, willDeleteAll: bool)
      ensures Valid()
      ensures noun == entryNoun && deleteAll == willDeleteAll
      ensures items == [] && ids == [] && idCount == 0
    {
      noun := entryNoun;
      deleteAll := willDeleteAll;
      items, ids, idCount := [], [], 0;
    }

    /**
     * `AddRenderable` / `AddLight`: appends the entry and returns the bumped
     * counter as its ID, larger than every ID already stored, with the log
     * line that reports it.
     */
    method Add(item: T) returns (id: nat, message: string)
      requires Valid()
      modifies this`items, this`ids, this`idCount
      ensures Valid()
      ensures id == old(idCount) + 1 && idCount == id
      ensures forall i :: 0 <= i < |old(ids)| ==> old(ids)[i] < id
      ensures items == old(items) + [item]
      ensures ids == old(ids) + [id]
      ensures message == LogLine(noun, id, AddedTail)
    {
      items := items + [item];
      idCount := idCount + 1;
      ids := ids + [idCount];
      message := noun + " #" + NatToString(idCount) + AddedTail;
      id := idCount;
    }

    /**
     * `RemoveRenderable` / `RemoveLight`: erases the entry with the given ID
     * from both vectors, keeping the order of the rest; an unknown ID
     * changes nothing. The entry itself is never deleted. `removed` says
     * which of the two log lines is written.
     */
    method Remove(id: nat) returns (removed: bool, message: string)
      requires Valid()
      modifies this`items, this`ids
      ensures Valid()
      ensures removed <==> id in old(ids)
      ensures !removed ==> items == old(items) && ids == old(ids)
      ensures removed ==> exists p :: 0 <= p < |old(ids)| && old(ids)[p] == id
                                    && items == RemoveAt(old(items), p)
                                    && ids == RemoveAt(old(ids), p)
      ensures message == LogLine(noun, id, if removed then RemovedTail else MissingTail)
    {
      removed := false;
      ghost var p: nat := 0;
      var i := 0;
      while i < |items|
        invariant 0 <= i <= |items| + 1
        invariant Valid()
        invariant !removed ==> i <= |items|
        invariant !removed ==> items == old(items) && ids == old(ids)
        invariant !removed ==> id !in old(ids)[..i]
        invariant removed ==> p < |old(ids)| && old(ids)[p] == id && p < i
        invariant removed ==> items == RemoveAt(old(items), p) && ids == RemoveAt(old(ids), p)
        invariant removed ==> id !in ids
        decreases |items| - i
      {
        if ids[i] == id {
          RemoveAtKeepsIssued(ids, idCount, i);
          p := i;
          items := RemoveAt(items, i);
          ids := RemoveAt(ids, i);
          removed := true;
        } else {
          assert old(ids)[..i + 1] == old(ids)[..i] + [ids[i]] || removed;
        }
        i := i + 1;
      }
      if !removed {
        assert old(ids)[..i] == old(ids);
      }
      if removed {
        message := noun + " #" + NatToString(id) + RemovedTail;
      } else {
        message := noun + " #" + NatToString(id) + MissingTail;
      }
    }

    /**
     * The destructor: the entries it deletes, in order. Every registered
     * entry is deleted exactly once when `deleteAll` is set, none otherwise.
     */
    method Destroy() returns (deleted: seq<T>)
      ensures deleted == if deleteAll then items else []
    {
      deleted := [];
      if deleteAll {
        for i := 0 to |items|
          invariant deleted == items[..i]
        {
          deleted := deleted + [items[i]];
        }
      }
    }
  }
}

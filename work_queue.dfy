/**
 * The hackforums content service's list of thread ids still to fetch: `init` replaces it,
 * `get` hands out up to 50 ids and rotates them to the back, and `send` stores a fetched page
 * and then removes its id. The process-wide mutex around the list is not modelled: every
 * operation below runs as one atomic step on the list.
 */
module WorkQueue {
  import opened Wrappers

  /** The number of ids `get` hands out at once. */
  const BatchSize: nat := 50

  /** `iter().position(|&x| x == id)` */
  function IndexOf(s: seq<int>, x: int): (r: Option<nat>)
    ensures r.Some? ==> r.value < |s| && s[r.value] == x && x !in s[..r.value]
    ensures r.None? <==> x !in s
  {
    if s == [] then None
    else if s[0] == x then Some(0)
    else
      var r := IndexOf(s[1..], x);
      if r.None? then None
      else
        assert s[..r.value + 1] == [s[0]] + s[1..][..r.value];
        Some(r.value + 1)
  }

  /** The list without the first occurrence of x; the list itself when x does not occur. */
  function RemoveFirst(s: seq<int>, x: int): seq<int> {
    var i := IndexOf(s, x);
    if i.Some? then s[..i.value] + s[i.value + 1..] else s
  }

  /** `rotate_left(k)` */
  function RotateLeft(s: seq<int>, k: nat): seq<int>
    requires k <= |s|
  {
    s[k..] + s[..k]
  }

  /**
   * Removing an id takes exactly one copy of it out of the list when there is one, keeps the
   * order of the rest, and changes nothing otherwise.
   */
  lemma RemoveFirstSpec(s: seq<int>, x: int)
    ensures x in s ==> multiset(RemoveFirst(s, x)) == multiset(s) - multiset{x}
    ensures x in s ==> |RemoveFirst(s, x)| == |s| - 1
    ensures x !in s ==> RemoveFirst(s, x) == s
    ensures x in s ==> exists i | 0 <= i < |s| :: s[i] == x && x !in s[..i]
                                               && RemoveFirst(s, x) == s[..i] + s[i + 1..]
  {
    var i := IndexOf(s, x);
    if i.Some? {
      var k := i.value;
      assert s == s[..k] + [x] + s[k + 1..];
      calc {
        multiset(s);
        multiset(s[..k]) + multiset{x} + multiset(s[k + 1..]);
        multiset(RemoveFirst(s, x)) + multiset{x};
      }
    }
  }

  /** Rotation keeps the length and the multiset of ids, and puts the first k at the back. */
  lemma RotateLeftSpec(s: seq<int>, k: nat)
    requires k <= |s|
    ensures |RotateLeft(s, k)| == |s|
    ensures multiset(RotateLeft(s, k)) == multiset(s)
    ensures RotateLeft(s, k)[|s| - k..] == s[..k]
  {
    assert s == s[..k] + s[k..];
  }

  /** The service's list of pending thread ids (`IDS`). */
  class IdList {
    var ids: seq<int>

    constructor ()
      ensures ids == []
    {
      ids := [];
    }

    /** `init`: the list becomes exactly the given one. */
    method Init(value: seq<int>)
      modifies this
      ensures ids == value
    {
      ids := value;
    }

    /** `remove`: the first occurrence of id is deleted, if there is one. */
    method Remove(id: int)
      modifies this
      ensures ids == RemoveFirst(old(ids), id)
    {
      var i := IndexOf(ids, id);
      if i.Some? {
        ids := ids[..i.value] + ids[i.value + 1..];
      }
    }

    /**
     * `get`: with more than 50 ids, the first 50 are handed out and moved to the back;
     * otherwise the whole list is handed out and the list stays as it is.
     */
    method Get() returns (batch: seq<int>)
      modifies this
      ensures |batch| <= BatchSize
      ensures |old(ids)| > BatchSize ==> batch == old(ids)[..BatchSize] && ids == RotateLeft(old(ids), BatchSize)
      ensures |old(ids)| <= BatchSize ==> batch == old(ids) && ids == old(ids)
      ensures multiset(ids) == multiset(old(ids))
    {
      if |ids| > BatchSize {
        RotateLeftSpec(ids, BatchSize);
        ids := RotateLeft(ids, BatchSize);
        batch := ids[|ids| - BatchSize..];
      } else {
        batch := ids;
      }
    }

    /**
     * `send`: `insertError` is the database's answer to storing the page, None on success.
     * The id leaves the list only once the page is stored; on failure the error text is
     * returned and the list is untouched.
     */
    method Send(id: int, insertError: Option<string>) returns (reply: string)
      modifies this
      ensures insertError.Some? ==> reply == insertError.value && ids == old(ids)
      ensures insertError.None? ==> reply == "" && ids == RemoveFirst(old(ids), id)
    {
      if insertError.Some? {
        return insertError.value;
      }
      Remove(id);
      reply := "";
    }
  }
}

/**
  Hook lists. `Use` appends to the client's list, and every builder keeps the
  list as it was when the builder was made. Lists are slices: a builder shares the
  backing array with the client, and `append` writes into that array while it has room.
 */
module Client {
  import opened Sql
  import opened Chain

  /** A slice of hooks: the first `len` elements of an array. */
  datatype Slice = Slice(data: array<Hook>, len: nat)

  ghost predicate InBounds(s: Slice) {
    s.len <= s.data.Length
  }

  ghost function Contents(s: Slice): (hooks: seq<Hook>)
    requires InBounds(s)
    reads s.data
  {
    s.data[..s.len]
  }

  /** The appended list; the elements the old slice shows are never written. */
  method Append(s: Slice, more: seq<Hook>) returns (r: Slice)
    requires InBounds(s)
    modifies s.data
    ensures InBounds(r) && Contents(r) == old(Contents(s)) + more
    ensures s.data[..s.len] == old(s.data[..s.len])
    ensures r.data == s.data || fresh(r.data)
    ensures r.len == s.len + |more|
  {
    var len := s.len + |more|;
    var data := s.data;
    if s.data.Length < len {
      data := new Hook[2 * len](_ => NilHook);
      forall k | 0 <= k < s.len {
        data[k] := s.data[k];
      }
    }
    forall k | 0 <= k < |more| {
      data[s.len + k] := more[k];
    }
    r := Slice(data, len);
    assert data[..len] == old(s.data[..s.len]) + more;
  }

  /** The hooks shared by all handles of one client. */
  class Registry {
    var hooks: Slice

    /** The lists handed to builders so far, with what they showed then. */
    ghost var handed: map<Slice, seq<Hook>>

    ghost predicate Valid()
      reads this, hooks.data, set s | s in handed :: s.data
    {
      && InBounds(hooks)
      && forall s | s in handed ::
           && InBounds(s) && Contents(s) == handed[s] && handed[s] <= Contents(hooks)
           && (s.data == hooks.data ==> s.len <= hooks.len)
    }

    constructor ()
      ensures Valid() && Contents(hooks) == [] && handed == map[]
    {
      var data := new Hook[0];
      hooks := Slice(data, 0);
      handed := map[];
    }

    method Use(more: seq<Hook>)
      requires Valid()
      modifies this, hooks.data
      ensures Valid()
      ensures Contents(hooks) == old(Contents(hooks)) + more && handed == old(handed)
    {
      hooks := Append(hooks, more);
    }

    /** The hooks of a new builder. */
    method Hooks() returns (s: Slice)
      requires Valid()
      modifies this`handed
      ensures Valid() && s == hooks && handed == old(handed)[s := Contents(s)]
    {
      s := hooks;
      handed := handed[s := Contents(s)];
    }
  }
}

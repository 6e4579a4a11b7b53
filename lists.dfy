/**
 * The result records of swtshead.h and the lists that collect them.
 *
 * The C lists are intrusive doubly linked lists hung off a head node;
 * swkernellist.h is not part of this model.  Its `list_add(new, head)` is
 * taken to be the Linux kernel one, which links the new node right after the
 * head, so a traversal from the head meets the newest node first.  The model
 * keeps `entries` in insertion order and gives the traversal order as
 * `Traversal()`.
 */
module ResultLists {

  /** sw_ts_pat_list_t: one program of the PAT. */
  datatype PatEntry = PatEntry(programNum: nat, programMapPid: nat)

  /** sw_ts_pmt_list_t: one elementary stream of a PMT. */
  datatype PmtEntry = PmtEntry(streamType: nat, elementaryPid: nat, esInfoLength: nat, programNum: nat)

  function Reverse<T>(s: seq<T>): (r: seq<T>)
    ensures |r| == |s|
    ensures forall i :: 0 <= i < |s| ==> r[i] == s[|s| - 1 - i]
  {
    if s == [] then [] else Reverse(s[1..]) + [s[0]]
  }

  lemma ConcatAssoc<T>(a: seq<T>, b: seq<T>, c: seq<T>)
    ensures (a + b) + c == a + (b + c)
  {
  }

  /** A list head with the nodes linked after it. */
  class ResultList<T> {
    /** The nodes, oldest first. */
    var entries: seq<T>

    /** init_pat_list / init_pmt_list followed by INIT_LIST_HEAD: an empty list. */
    constructor ()
      ensures entries == []
    {
      entries := [];
    }

    /**
     * add_pat_list / add_pmt_list: one new node holding a copy of the given
     * record; the nodes already there are untouched.  The C function
     * returns -1 when malloc fails; allocation does not fail in this
     * model, so the result is always 1.
     */
    method Add(e: T) returns (r: int)
      modifies this
      ensures r == 1
      ensures entries == old(entries) + [e]
      ensures |entries| == |old(entries)| + 1 && entries[|entries| - 1] == e
      ensures entries[..|old(entries)|] == old(entries)
    {
      entries := entries + [e];
      r := 1;
    }

    /** The order in which list_for_each_safe visits the nodes: newest first. */
    function Traversal(): (t: seq<T>)
      reads this
      ensures |t| == |entries|
      ensures forall i :: 0 <= i < |t| ==> t[i] == entries[|entries| - 1 - i]
    {
      Reverse(entries)
    }

    /**
     * free_pat_list / free_pmt_list: every node is released.  The C code
     * leaves the head's links pointing at the freed nodes; the model only
     * says that no entry remains.
     */
    method Free()
      modifies this
      ensures entries == []
    {
      entries := [];
    }
  }
}

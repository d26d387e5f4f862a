/** The filter accept list store: a sequence of entries kept free of
    duplicates, in insertion order. */
module AcceptList {
  import opened Hci

  /** One accept-list entry; two entries name the same device iff both the
      address type and the address match. */
  datatype Entry = Entry(addressType: FilterAcceptListAddressType, address: Address)

  predicate NoDuplicates(l: seq<Entry>) {
    forall i, j :: 0 <= i < j < |l| ==> l[i] != l[j]
  }

  /** Stores an entry that is not yet in the list. */
  function Insert(l: seq<Entry>, e: Entry): (r: seq<Entry>)
    requires e !in l
    ensures forall x :: x in r <==> x in l || x == e
    ensures |r| == |l| + 1
    ensures NoDuplicates(l) ==> NoDuplicates(r)
  {
    l + [e]
  }

  /** Drops every entry equal to `e` and keeps the rest in order. */
  function Delete(l: seq<Entry>, e: Entry): (r: seq<Entry>)
    ensures forall x :: x in r <==> x in l && x != e
    ensures e !in l ==> r == l
    ensures NoDuplicates(l) ==> NoDuplicates(r)
    ensures NoDuplicates(l) && e in l ==> |r| == |l| - 1
    decreases |l|
  {
    if |l| == 0 then []
    else if l[0] == e then Delete(l[1..], e)
    else
      var rest := Delete(l[1..], e);
      assert NoDuplicates(l) ==> NoDuplicates(l[1..]) && l[0] !in l[1..] by {
        if NoDuplicates(l) {
          NoDuplicatesTail(l);
        }
      }
      [l[0]] + rest
  }

  /** Dropping the head of a duplicate-free list keeps it duplicate-free. */
  lemma NoDuplicatesTail(l: seq<Entry>)
    requires NoDuplicates(l) && |l| > 0
    ensures NoDuplicates(l[1..]) && l[0] !in l[1..]
  {
  }

  /** The position of the first entry equal to `e`. */
  function IndexOf(l: seq<Entry>, e: Entry): (i: nat)
    requires e in l
    ensures i < |l| && l[i] == e
    ensures e !in l[..i]
    decreases |l|
  {
    if l[0] == e then 0
    else
      var k := IndexOf(l[1..], e);
      assert l[..k + 1] == [l[0]] + l[1..][..k];
      k + 1
  }

  /** In a duplicate-free list, deleting a present entry cuts it out at its
      position; the entries before and after it keep their order. */
  lemma {:induction false} DeleteCutsOut(l: seq<Entry>, e: Entry)
    requires NoDuplicates(l) && e in l
    ensures Delete(l, e) == l[..IndexOf(l, e)] + l[IndexOf(l, e) + 1..]
    decreases |l|
  {
    NoDuplicatesTail(l);
    if l[0] != e {
      var tail := l[1..];
      DeleteCutsOut(tail, e);
      var j := IndexOf(tail, e);
      assert IndexOf(l, e) == j + 1;
      assert tail[..j] == l[1..j + 1];
      assert tail[j + 1..] == l[j + 2..];
      assert [l[0]] + l[1..j + 1] == l[..j + 1];
    }
  }

  /** Deleting an entry just appended to a list that lacked it gives back
      the original list, order included. */
  lemma {:induction false} DeleteInsertRoundTrip(l: seq<Entry>, e: Entry)
    requires e !in l
    ensures Delete(Insert(l, e), e) == l
    decreases |l|
  {
    if |l| > 0 {
      assert Insert(l, e)[1..] == Insert(l[1..], e);
      DeleteInsertRoundTrip(l[1..], e);
      assert l == [l[0]] + l[1..];
    }
  }
}

/** The other operations on the linked list of coremark: removal that moves data instead of
    nodes, its undoing, search and reversal. */
module ListEdits {
  import opened ListSort

  /** The data of the nodes, in list order. */
  ghost function Infos(s: seq<ListHead>): (r: seq<ListData>)
    reads s
    ensures |r| == |s| && forall i :: 0 <= i < |s| ==> r[i] == s[i].info
  {
    seq(|s|, i requires 0 <= i < |s| reads s => s[i].info)
  }

  lemma NotTwice(s: seq<ListHead>, i: nat)
    requires NoDup(s) && i < |s|
    ensures forall k :: 0 <= k < |s| && s[k] == s[i] ==> k == i
  {}

  // ---------- removal ----------

  /** core_list_remove(): the data of the item leaves the list, carried by the node behind it. */
  method Remove(head: ListHead, item: ListHead, ghost s: seq<ListHead>, ghost i: nat) returns (ret: ListHead)
    requires ListFrom(head, s) && NoDup(s) && i + 1 < |s| && item == s[i]
    modifies s[i], s[i + 1]
    ensures ret == s[i + 1] && ret.next == null && ret.info == old(item.info)
    ensures item.next == old(s[i + 1].next) && item.info == old(s[i + 1].info)
    ensures ListFrom(head, s[..i + 1] + s[i + 2..])
    ensures Infos(s[..i + 1] + s[i + 2..]) == old(Infos(s)[..i] + Infos(s)[i + 1..])
  {
    hide NoDup;
    ret := item.next;
    NotTwice(s, i);
    NotTwice(s, i + 1);
    ghost var behind := ret.next;
    assert i + 2 < |s| ==> behind == s[i + 2];
    var tmp := item.info;
    item.info := ret.info;
    ret.info := tmp;
    item.next := item.next.next;
    ret.next := null;
    ghost var t := s[..i + 1] + s[i + 2..];
    LinksOver(head, s, i);
    InfosOver(s, i, old(Infos(s)));
  }

  /** The list without the node that its predecessor links over. */
  lemma LinksOver(head: ListHead, s: seq<ListHead>, i: nat)
    requires i + 1 < |s| && head == s[0]
    requires forall k :: 0 <= k < |s| - 1 && k != i && k != i + 1 ==> s[k].next == s[k + 1]
    requires i + 2 < |s| ==> s[|s| - 1].next == null
    requires s[i].next == if i + 2 < |s| then s[i + 2] else null
    ensures ListFrom(head, s[..i + 1] + s[i + 2..])
  {
    var t := s[..i + 1] + s[i + 2..];
    assert forall k :: 0 <= k < |t| ==> t[k] == if k <= i then s[k] else s[k + 1];
  }

  lemma InfosOver(s: seq<ListHead>, i: nat, was: seq<ListData>)
    requires i + 1 < |s| == |was| && s[i].info == was[i + 1]
    requires forall k :: 0 <= k < |s| && k != i && k != i + 1 ==> s[k].info == was[k]
    ensures Infos(s[..i + 1] + s[i + 2..]) == was[..i] + was[i + 1..]
  {
    var t := s[..i + 1] + s[i + 2..];
    assert forall k :: 0 <= k < |t| ==> t[k] == if k <= i then s[k] else s[k + 1];
  }

  /** core_list_undo_remove(): the node comes back behind the item, and the data change back. */
  method UndoRemove(head: ListHead, item_removed: ListHead, item_modified: ListHead, ghost s: seq<ListHead>,
      ghost i: nat)
    returns (r: ListHead)
    requires ListFrom(head, s) && NoDup(s) && i < |s| && item_modified == s[i] && item_removed !in s
    modifies item_removed, item_modified
    ensures r == item_removed
    ensures item_removed.next == old(item_modified.next) && item_modified.next == item_removed
    ensures item_removed.info == old(item_modified.info) && item_modified.info == old(item_removed.info)
    ensures ListFrom(head, s[..i + 1] + [item_removed] + s[i + 1..])
    ensures Infos(s[..i + 1] + [item_removed] + s[i + 1..]) == old(Infos(s)[..i] + [item_removed.info] + Infos(s)[i..])
  {
    hide NoDup;
    NotTwice(s, i);
    var tmp := item_removed.info;
    item_removed.info := item_modified.info;
    item_modified.info := tmp;
    item_removed.next := item_modified.next;
    item_modified.next := item_removed;
    LinksIn(head, s, i, item_removed);
    InfosIn(s, i, item_removed, old(Infos(s)), old(item_removed.info));
    r := item_removed;
  }

  /** The list with a node that its predecessor links to. */
  lemma LinksIn(head: ListHead, s: seq<ListHead>, i: nat, n: ListHead)
    requires i < |s| && head == s[0]
    requires forall k :: 0 <= k < |s| - 1 && k != i ==> s[k].next == s[k + 1]
    requires i + 1 < |s| ==> s[|s| - 1].next == null
    requires s[i].next == n && n.next == if i + 1 < |s| then s[i + 1] else null
    ensures ListFrom(head, s[..i + 1] + [n] + s[i + 1..])
  {
    var t := s[..i + 1] + [n] + s[i + 1..];
    assert forall k :: 0 <= k < |t| ==> t[k] == if k <= i then s[k] else if k == i + 1 then n else s[k - 1];
  }

  lemma InfosIn(s: seq<ListHead>, i: nat, n: ListHead, was: seq<ListData>, info: ListData)
    requires i < |s| == |was| && s[i].info == info && n.info == was[i]
    requires forall k :: 0 <= k < |s| && k != i ==> s[k].info == was[k]
    ensures Infos(s[..i + 1] + [n] + s[i + 1..]) == was[..i] + [info] + was[i..]
  {
    var t := s[..i + 1] + [n] + s[i + 1..];
    assert forall k :: 0 <= k < |t| ==> t[k] == if k <= i then s[k] else if k == i + 1 then n else s[k - 1];
  }

  /** A removal that is undone leaves every node as it was. */
  method RemoveAndUndo(head: ListHead, item: ListHead, ghost s: seq<ListHead>, ghost i: nat)
    requires ListFrom(head, s) && NoDup(s) && i + 1 < |s| && item == s[i]
    modifies s[i], s[i + 1]
    ensures forall n :: n in s ==> n.next == old(n.next) && n.info == old(n.info)
  {
    hide ListFrom, Infos, NoDup;
    WithoutNext(head, s, i);
    var ret := Remove(head, item, s, i);
    var _ := UndoRemove(head, ret, item, s[..i + 1] + s[i + 2..], i);
  }

  lemma WithoutNext(head: ListHead, s: seq<ListHead>, i: nat)
    requires ListFrom(head, s) && NoDup(s) && i + 1 < |s|
    ensures var t := s[..i + 1] + s[i + 2..]; NoDup(t) && s[i + 1] !in t && t[i] == s[i]
    ensures s[i].next == s[i + 1] && s[i] != s[i + 1]
  {
    var t := s[..i + 1] + s[i + 2..];
    assert forall k :: 0 <= k < |t| ==> t[k] == if k <= i then s[k] else s[k + 1];
  }

  // ---------- search ----------

  /** What core_list_find() looks for: an index, unless it is negative, or else data. */
  predicate Found(info: ListData, idx: int, data16: u16)
    reads info
  {
    if idx >= 0 then info.idx == idx else info.data16 % 0x100 == data16
  }

  /** core_list_find(): the first node that fits. */
  method Find(list0: ListHead?, info: ListData, ghost s: seq<ListHead>) returns (list: ListHead?, ghost k: nat)
    requires ListFrom(list0, s)
    ensures k <= |s| && list == (if k < |s| then s[k] else null)
    ensures k < |s| ==> Found(s[k].info, info.idx, info.data16)
    ensures forall i :: 0 <= i < k ==> !Found(s[i].info, info.idx, info.data16)
    ensures info.idx >= 0 ==>
      (k < |s| ==> s[k].info.idx == info.idx) && forall i :: 0 <= i < k ==> s[i].info.idx != info.idx
    ensures info.idx < 0 ==>
      && (k < |s| ==> s[k].info.data16 % 0x100 == info.data16)
      && forall i :: 0 <= i < k ==> s[i].info.data16 % 0x100 != info.data16
  {
    list, k := list0, 0;
    if info.idx >= 0 {
      while list != null && list.info.idx != info.idx
        invariant k <= |s| && list == (if k < |s| then s[k] else null)
        invariant forall i :: 0 <= i < k ==> !Found(s[i].info, info.idx, info.data16)
        decreases |s| - k
      {
        list, k := list.next, k + 1;
      }
    } else {
      while list != null && list.info.data16 % 0x100 != info.data16
        invariant k <= |s| && list == (if k < |s| then s[k] else null)
        invariant forall i :: 0 <= i < k ==> !Found(s[i].info, info.idx, info.data16)
        decreases |s| - k
      {
        list, k := list.next, k + 1;
      }
    }
  }

  // ---------- reversal ----------

  function Reversed<T>(s: seq<T>): (r: seq<T>)
    ensures |r| == |s|
  {
    if s == [] then [] else Reversed(s[1..]) + [s[0]]
  }

  lemma {:induction false} ReversedAt<T>(s: seq<T>, k: nat)
    requires k < |s|
    ensures Reversed(s)[k] == s[|s| - 1 - k]
  {
    if k < |s| - 1 { ReversedAt(s[1..], k); }
  }

  lemma {:induction false} ReversedSnoc<T>(s: seq<T>, x: T)
    ensures Reversed(s + [x]) == [x] + Reversed(s)
  {
    if s != [] {
      assert (s + [x])[1..] == s[1..] + [x];
      ReversedSnoc(s[1..], x);
    }
  }

  /** core_list_reverse(): the same nodes with the same data, linked the other way round. */
  method Reverse(list0: ListHead?, ghost s: seq<ListHead>) returns (next: ListHead?)
    requires ListFrom(list0, s) && NoDup(s)
    modifies s
    ensures ListFrom(next, Reversed(s))
    ensures forall n :: n in s ==> n.info == old(n.info)
  {
    var list := list0;
    next := null;
    ghost var k: nat := 0;
    while list != null
      invariant k <= |s| && ListFrom(list, s[k..]) && ListFrom(next, Reversed(s[..k]))
      invariant forall n :: n in s ==> n.info == old(n.info)
      decreases |s| - k
    {
      var tmp := list.next;
      ReverseStep(list, next, s, k);
      list.next := next;
      next := list;
      list := tmp;
      k := k + 1;
    }
    assert s[..k] == s;
  }

  lemma ReverseStep(list: ListHead, next: ListHead?, s: seq<ListHead>, k: nat)
    requires k < |s| && NoDup(s) && list == s[k] && ListFrom(list, s[k..]) && ListFrom(next, Reversed(s[..k]))
    ensures list.next == if k + 1 < |s| then s[k + 1] else null
    ensures Reversed(s[..k + 1]) == [s[k]] + Reversed(s[..k])
    ensures s[k] !in Reversed(s[..k]) && s[k] !in s[k + 1..]
    ensures ListFrom(list.next, s[k + 1..])
  {
    assert s[..k + 1] == s[..k] + [s[k]];
    ReversedSnoc(s[..k], s[k]);
    forall i | 0 <= i < k ensures Reversed(s[..k])[i] != s[k] {
      ReversedAt(s[..k], i);
    }
    assert forall i :: k <= i < |s| ==> s[k..][i - k] == s[i];
    assert s[k..][1..] == s[k + 1..];
  }
}

/** The singly linked list that serves as the queue of the breadth-first construction and as the stack of the
    enumerator. */
module Slists {

  class ListItem<T> {
    const data: T
    var next: ListItem?<T>

    constructor (data: T)
      ensures this.data == data && next == null
    {
      this.data, next := data, null;
    }
  }

  class List<T> {
    var head: ListItem?<T>
    var last: ListItem?<T>
    ghost var items: seq<ListItem<T>>

    constructor ()
      ensures Valid() && items == []
    {
      head, last, items := null, null, [];
    }

    ghost predicate Valid()
      reads this, items
    {
      if items == [] then head == null && last == null
      else
        head == items[0] && last == items[|items| - 1] && last.next == null &&
        (forall i :: 0 <= i < |items| - 1 ==> items[i].next == items[i + 1]) &&
        forall i, j :: 0 <= i < j < |items| ==> items[i] != items[j]
    }

    ghost function Contents(): (s: seq<T>)
      reads this
      ensures |s| == |items|
    {
      seq(|items|, i requires 0 <= i < |items| reads this => items[i].data)
    }

    method Append(item: ListItem<T>)
      requires Valid() && item !in items && item.next == null
      modifies this, last
      ensures Valid() && items == old(items) + [item]
      ensures Contents() == old(Contents()) + [item.data]
    {
      if last != null {
        last.next := item;
        last := item;
      } else {
        head, last := item, item;
      }
      items := items + [item];
    }

    method PushFront(item: ListItem<T>)
      requires Valid() && item !in items && item.next == null
      modifies this, item
      ensures Valid() && items == [item] + old(items)
      ensures Contents() == [item.data] + old(Contents())
    {
      if head != null {
        item.next := head;
        head := item;
      } else {
        head, last := item, item;
      }
      items := [item] + items;
    }

    method PopFirst() returns (item: ListItem?<T>)
      requires Valid()
      modifies this
      ensures Valid()
      ensures item == null <==> old(items) == []
      ensures item == null ==> items == []
      ensures item != null ==> item == old(items)[0] && items == old(items)[1..]
                               && item.data == old(Contents())[0] && Contents() == old(Contents())[1..]
    {
      if head == null {
        return null;
      }
      item := head;
      head := item.next;
      if head == null {
        last := null;
      }
      items := items[1..];
    }
  }
}

/**
 * The users, and likewise the channels, of a client: a table from id to object, and a linked
 * list of the same objects for walking.
 */
module Directory {
  import opened LinkedList
  import opened Wrappers

  /** A user or a channel; its id never changes, the rest is plain data. */
  class Member {
    const id: int
    var name: string

    constructor (id: int)
      ensures this.id == id && name == ""
    {
      this.id := id;
      name := "";
    }
  }

  /** List and table hold the same objects under the same ids, and no id is listed twice. */
  ghost predicate Agree(list: seq<Entry<Member>>, table: map<int, Member>) {
    && (forall i, j | 0 <= i < j < |list| :: list[i].index != list[j].index)
    && (forall e | e in list :: e.index in table && table[e.index] == e.data)
    && (forall k | k in table :: Entry(k, table[k]) in list)
    && (forall e | e in list :: e.data.id == e.index)
  }

  lemma AgreeAdds(list: seq<Entry<Member>>, table: map<int, Member>, m: Member)
    requires Agree(list, table) && m.id !in table
    ensures Agree([Entry(m.id, m)] + list, table[m.id := m])
  {
    var r := [Entry(m.id, m)] + list;
    assert forall e | e in r :: e == Entry(m.id, m) || e in list;
    assert forall i | 0 <= i < |list| :: list[i] in list;
    assert r[0] == Entry(m.id, m);
    assert forall e | e in list :: r[0] in r && e in r;
  }

  lemma AgreeRemoves(list: seq<Entry<Member>>, table: map<int, Member>, id: int)
    requires Agree(list, table)
    ensures Agree(RemoveFirst(list, id), table - {id})
  {
    var r := RemoveFirst(list, id);
    forall e | e in r
      ensures e in list && e.index != id
    {
      RemoveFirstMembers(list, id, e);
      NoneLeft(list, id, e);
    }
    forall k | k in table - {id}
      ensures Entry(k, table[k]) in r
    {
      RemoveFirstMembers(list, id, Entry(k, table[k]));
    }
    StillDistinct(list, id);
  }

  ghost predicate DistinctIds(list: seq<Entry<Member>>) {
    forall i, j | 0 <= i < j < |list| :: list[i].index != list[j].index
  }

  lemma {:induction false} NoneLeft(list: seq<Entry<Member>>, id: int, e: Entry<Member>)
    requires DistinctIds(list)
    ensures e in RemoveFirst(list, id) ==> e.index != id
  {
    if |list| > 0 {
      if list[0].index == id {
        if e in list[1..] {
          var j :| 0 <= j < |list| - 1 && list[1..][j] == e;
          assert list[0].index != list[j + 1].index;
        }
      } else {
        NoneLeft(list[1..], id, e);
      }
    }
  }

  lemma {:induction false} StillDistinct(list: seq<Entry<Member>>, id: int)
    requires DistinctIds(list)
    ensures DistinctIds(RemoveFirst(list, id))
  {
    if |list| > 0 && list[0].index != id {
      StillDistinct(list[1..], id);
      var r := RemoveFirst(list[1..], id);
      forall j | 0 <= j < |r|
        ensures r[j].index != list[0].index
      {
        RemoveFirstMembers(list[1..], id, r[j]);
        var k :| 0 <= k < |list| - 1 && list[1..][k] == r[j];
        assert list[0].index != list[k + 1].index;
      }
    }
  }

  lemma {:induction false} FoundIsTabled(list: seq<Entry<Member>>, table: map<int, Member>, id: int)
    requires Agree(list, table)
    ensures FindFirst(list, id) == if id in table then Some(table[id]) else None
  {
    if id in table {
      var k :| 0 <= k < |list| && list[k] == Entry(id, table[id]);
      RemoveFirstAt(list, id, k);
    } else {
      forall j | 0 <= j < |list|
        ensures list[j].index != id
      {
        assert list[j] in list;
      }
      RemoveFirstAt(list, id, |list|);
    }
  }

  class Client {
    const list: LinkList<Member>
    var table: map<int, Member>

    ghost predicate Valid()
      reads this, list, list.spine
    {
      list.Valid() && Agree(list.Contents(), table)
    }

    constructor ()
      ensures Valid() && table == map[] && fresh(list)
    {
      list := new LinkList<Member>();
      table := map[];
    }

    /** Looks a member up, creating and registering it under a new id. */
    method Get(id: int) returns (m: Member)
      requires Valid()
      modifies this, list
      ensures Valid() && m.id == id
      ensures if id in old(table) then m == old(table)[id] && table == old(table) && list.Contents() == old(list.Contents())
              else fresh(m) && table == old(table)[id := m] && list.Contents() == [Entry(id, m)] + old(list.Contents())
      ensures forall n | n in list.spine :: n in old(list.spine) || fresh(n)
    {
      if id in table {
        assert Entry(id, table[id]) in list.Contents();
        m := table[id];
      } else {
        m := new Member(id);
        AgreeAdds(list.Contents(), table, m);
        list.Add(id, m);
        table := table[id := m];
      }
    }

    /** Drops an id from the table and from the list; an unknown one changes nothing. */
    method Remove(id: int)
      requires Valid()
      modifies this, list, list.spine
      ensures Valid() && table == old(table) - {id}
      ensures list.Contents() == RemoveFirst(old(list.Contents()), id)
      ensures forall n | n in list.spine :: n in old(list.spine)
    {
      AgreeRemoves(list.Contents(), table, id);
      table := table - {id};
      list.Remove(id);
    }

    /** Walking the list finds exactly what the table holds. */
    method Find(id: int) returns (r: Option<Member>)
      requires Valid()
      ensures r == if id in table then Some(table[id]) else None
    {
      FoundIsTabled(list.Contents(), table, id);
      r := list.Get(id);
    }
  }
}

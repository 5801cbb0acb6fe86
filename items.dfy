/** The bill's item list and the edits the input form makes to it. */
module ItemList {

  /** One row of the bill. The price is the already-parsed number typed by the user. */
  datatype Item = Item(id: int, name: string, price: real)

  /** The two field edits the form performs: the "name" field or the "price" field. */
  datatype Edit = SetName(name: string) | SetPrice(price: real)

  /** A freshly added row: empty name, zero price. */
  function Blank(id: int): (r: Item)
    ensures r.id == id && r.name == "" && r.price == 0.0
  {
    Item(id, "", 0.0)
  }

  /** The identifiers of a list, in order. */
  function Ids(items: seq<Item>): (r: seq<int>)
    ensures |r| == |items|
  {
    seq(|items|, i requires 0 <= i < |items| => items[i].id)
  }

  /** No two rows share an identifier. */
  predicate IdsUnique(items: seq<Item>) {
    forall i, j :: 0 <= i < j < |items| ==> items[i].id != items[j].id
  }

  /** The initial list, also restored on reset: two blank rows with ids 1 and 2. */
  function DefaultItems(): (r: seq<Item>)
    ensures Ids(r) == [1, 2]
    ensures forall it :: it in r ==> it.name == "" && it.price == 0.0
    ensures IdsUnique(r)
  {
    [Blank(1), Blank(2)]
  }

  /** The list with every row carrying `id` filtered out. */
  function RemoveById(items: seq<Item>, id: int): (r: seq<Item>)
    ensures |r| <= |items|
  {
    if items == [] then []
    else if items[0].id == id then RemoveById(items[1..], id)
    else [items[0]] + RemoveById(items[1..], id)
  }

  /** One field of a row replaced, the others copied. */
  function Apply(it: Item, e: Edit): (r: Item)
    ensures r.id == it.id
    ensures e.SetName? ==> r.name == e.name && r.price == it.price
    ensures e.SetPrice? ==> r.price == e.price && r.name == it.name
  {
    match e
    case SetName(n) => it.(name := n)
    case SetPrice(p) => it.(price := p)
  }

  /** The list with the edit applied to every row carrying `id`. */
  function UpdateById(items: seq<Item>, id: int, e: Edit): (r: seq<Item>)
    ensures |r| == |items|
    ensures forall i :: 0 <= i < |items| && items[i].id == id ==> r[i] == Apply(items[i], e)
    ensures forall i :: 0 <= i < |items| && items[i].id != id ==> r[i] == items[i]
    ensures Ids(r) == Ids(items)
  {
    if items == [] then []
    else [if items[0].id == id then Apply(items[0], e) else items[0]] + UpdateById(items[1..], id, e)
  }

  /** The rows kept are exactly those whose id differs from `id`. */
  lemma {:induction false} RemoveByIdMembers(items: seq<Item>, id: int)
    ensures forall it :: it in RemoveById(items, id) <==> it in items && it.id != id
  {
    if items != [] {
      RemoveByIdMembers(items[1..], id);
      assert items == [items[0]] + items[1..];
    }
  }

  /** Filtering distributes over concatenation: rows keep their relative order. */
  lemma {:induction false} RemoveByIdAppend(a: seq<Item>, b: seq<Item>, id: int)
    ensures RemoveById(a + b, id) == RemoveById(a, id) + RemoveById(b, id)
  {
    if a == [] {
      assert a + b == b;
    } else {
      assert (a + b)[0] == a[0];
      assert (a + b)[1..] == a[1..] + b;
      RemoveByIdAppend(a[1..], b, id);
    }
  }

  /** Removing an identifier no row carries leaves the list as it was. */
  lemma {:induction false} RemoveByIdAbsent(items: seq<Item>, id: int)
    requires id !in Ids(items)
    ensures RemoveById(items, id) == items
  {
    if items != [] {
      assert items[0].id == Ids(items)[0];
      assert Ids(items[1..]) == Ids(items)[1..];
      RemoveByIdAbsent(items[1..], id);
    }
  }

  /** The tail of a list with unique ids has unique ids, none of them the head's. */
  lemma UniqueTail(items: seq<Item>)
    requires IdsUnique(items) && items != []
    ensures IdsUnique(items[1..])
    ensures items[0].id !in Ids(items[1..])
  {
    var rest := items[1..];
    forall i, j | 0 <= i < j < |rest| ensures rest[i].id != rest[j].id {
      assert rest[i] == items[i + 1] && rest[j] == items[j + 1];
    }
    forall j | 0 <= j < |rest| ensures Ids(rest)[j] != items[0].id {
      assert rest[j] == items[j + 1];
    }
  }

  /** Prepending a row whose id the rest does not use keeps the ids unique. */
  lemma ConsUnique(x: Item, tail: seq<Item>)
    requires IdsUnique(tail)
    requires x.id !in Ids(tail)
    ensures IdsUnique([x] + tail)
  {
    var r := [x] + tail;
    forall i, j | 0 <= i < j < |r| ensures r[i].id != r[j].id {
      assert r[j] == tail[j - 1];
      if i > 0 {
        assert r[i] == tail[i - 1];
      } else {
        assert Ids(tail)[j - 1] == tail[j - 1].id;
      }
    }
  }

  /** In a list with unique ids, removing the id of the first row drops exactly that row. */
  lemma RemoveByIdUniqueHead(items: seq<Item>)
    requires IdsUnique(items) && items != []
    ensures RemoveById(items, items[0].id) == items[1..]
  {
    UniqueTail(items);
    RemoveByIdAbsent(items[1..], items[0].id);
  }

  /** In a list with unique ids, removing the id of row k drops exactly that row. */
  lemma {:induction false} RemoveByIdUnique(items: seq<Item>, k: nat)
    requires IdsUnique(items)
    requires k < |items|
    ensures RemoveById(items, items[k].id) == items[..k] + items[k + 1..]
  {
    if k == 0 {
      RemoveByIdUniqueHead(items);
      assert items[..0] + items[1..] == items[1..];
    } else {
      var id, rest := items[k].id, items[1..];
      UniqueTail(items);
      assert rest[k - 1] == items[k];
      RemoveByIdUnique(rest, k - 1);
      assert items[0].id != id;
      assert RemoveById(items, id) == [items[0]] + RemoveById(rest, id);
      assert items[..k] + items[k + 1..] == [items[0]] + (rest[..k - 1] + rest[k..]);
    }
  }

  /** Removing rows never introduces a duplicate identifier. */
  lemma {:induction false} RemoveByIdKeepsUnique(items: seq<Item>, id: int)
    requires IdsUnique(items)
    ensures IdsUnique(RemoveById(items, id))
  {
    if items != [] {
      var rest := items[1..];
      UniqueTail(items);
      RemoveByIdKeepsUnique(rest, id);
      if items[0].id != id {
        var tail := RemoveById(rest, id);
        RemoveByIdMembers(rest, id);
        assert items[0].id !in Ids(tail) by {
          forall j | 0 <= j < |tail| ensures Ids(tail)[j] != items[0].id {
            assert tail[j] in rest;
            var m :| 0 <= m < |rest| && rest[m] == tail[j];
            assert Ids(rest)[m] == rest[m].id;
          }
        }
        ConsUnique(items[0], tail);
      }
    }
  }

  /** Appending a row keeps the ids unique exactly when the new id was not already used. */
  lemma AppendKeepsUnique(items: seq<Item>, it: Item)
    ensures IdsUnique(items + [it]) <==> IdsUnique(items) && it.id !in Ids(items)
  {
    var r := items + [it];
    if IdsUnique(r) {
      assert IdsUnique(items) by {
        forall i, j | 0 <= i < j < |items| ensures items[i].id != items[j].id {
          assert r[i] == items[i] && r[j] == items[j];
        }
      }
      forall k | 0 <= k < |items| ensures Ids(items)[k] != it.id {
        assert r[k] == items[k] && r[|items|] == it;
      }
    }
    if IdsUnique(items) && it.id !in Ids(items) {
      forall i, j | 0 <= i < j < |r| ensures r[i].id != r[j].id {
        if j < |items| {
          assert r[i] == items[i] && r[j] == items[j];
        } else {
          assert r[i] == items[i] && Ids(items)[i] == items[i].id;
        }
      }
    }
  }
}

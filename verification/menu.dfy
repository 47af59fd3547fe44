/** The menu routes (`/api/menu`): add, edit and delete items of `data/menu.json`. */
module Menu {
  import opened Common
  import opened Store

  /** No two menu items share an id. */
  predicate UniqueIds(items: seq<MenuItem>) {
    forall i, j :: 0 <= i < j < |items| ==> items[i].id != items[j].id
  }

  /** `Math.max(...items.map(item => item.id))`. */
  function MaxId(items: seq<MenuItem>): (m: int)
    requires items != []
    ensures forall i :: 0 <= i < |items| ==> items[i].id <= m
    ensures exists i :: 0 <= i < |items| && items[i].id == m
  {
    if |items| == 1 then items[0].id
    else
      var rest := MaxId(items[1..]);
      if items[0].id >= rest then items[0].id else rest
  }

  /** The id a new item gets: one more than the largest id, or 1 on an empty menu. */
  function NextId(items: seq<MenuItem>): (r: int)
    ensures forall i :: 0 <= i < |items| ==> items[i].id < r
    ensures items == [] ==> r == 1
    ensures items != [] ==> exists i :: 0 <= i < |items| && r == items[i].id + 1
  {
    if items == [] then 1 else MaxId(items) + 1
  }

  /** `description || ''`. */
  function DescriptionOr(description: Option<string>): string {
    if Given(description) then description.value else ""
  }

  /** POST `/api/menu/add`: append an available item with the next id. */
  method AddItem(d: DataDir, name: Option<string>, price: Option<real>, category: Option<string>,
                 description: Option<string>)
    returns (r: Result<MenuItem>)
    modifies d`menu
    ensures !(Given(name) && GivenNumber(price) && Given(category)) ==>
      r.Err? && r.error.status == 400 && d.menu == old(d.menu)
    ensures Given(name) && GivenNumber(price) && Given(category) ==>
      && r == Ok(MenuItem(NextId(old(d.menu)), name.value, price.value, category.value,
                          DescriptionOr(description), true))
      && d.menu == old(d.menu) + [r.value]
  {
    if !Given(name) || !GivenNumber(price) || !Given(category) {
      return Err(BadRequest("Name, price, and category are required"));
    }
    var newId := if |d.menu| > 0 then MaxId(d.menu) + 1 else 1;
    var newItem := MenuItem(newId, name.value, price.value, category.value, DescriptionOr(description), true);
    d.menu := d.menu + [newItem];
    r := Ok(newItem);
  }

  /** The new item's id is above every existing id, so adding it keeps ids unique. */
  lemma AddKeepsIdsUnique(items: seq<MenuItem>, item: MenuItem)
    requires UniqueIds(items)
    requires item.id == NextId(items)
    ensures UniqueIds(items + [item])
    ensures forall i :: 0 <= i < |items| ==> items[i].id < item.id
  {
  }

  /** The fields of an edit request; for `description` and `available`, `None` is `undefined`. */
  datatype MenuEdit = MenuEdit(
    name: Option<string>, price: Option<real>, category: Option<string>,
    description: Option<string>, available: Option<bool>)

  /** The item with the edit's supplied fields written over it. */
  function ApplyEdit(item: MenuItem, e: MenuEdit): MenuItem {
    item.(
      name := if Given(e.name) then e.name.value else item.name,
      price := if GivenNumber(e.price) then e.price.value else item.price,
      category := if Given(e.category) then e.category.value else item.category,
      description := if e.description.Some? then e.description.value else item.description,
      available := if e.available.Some? then e.available.value else item.available)
  }

  /** An edit overwrites a field only when it is supplied (truthy `name`, `price`,
      `category`; defined `description`, `available`) and never touches the id. */
  lemma EditOverwritesOnlySupplied(item: MenuItem, e: MenuEdit)
    ensures var r := ApplyEdit(item, e);
      && r.id == item.id
      && (Given(e.name) ==> r.name == e.name.value) && (!Given(e.name) ==> r.name == item.name)
      && (GivenNumber(e.price) ==> r.price == e.price.value) && (!GivenNumber(e.price) ==> r.price == item.price)
      && (Given(e.category) ==> r.category == e.category.value)
      && (!Given(e.category) ==> r.category == item.category)
      && (e.description.Some? ==> r.description == e.description.value)
      && (e.description.None? ==> r.description == item.description)
      && (e.available.Some? ==> r.available == e.available.value)
      && (e.available.None? ==> r.available == item.available)
  {
  }

  /** POST `/api/menu/edit`: overwrite the supplied fields of the first item with the id. */
  method EditItem(d: DataDir, id: Option<int>, e: MenuEdit) returns (r: Result<MenuItem>)
    modifies d`menu
    ensures !GivenInt(id) ==> r.Err? && r.error.status == 400 && d.menu == old(d.menu)
    ensures GivenInt(id) && (forall i :: 0 <= i < |old(d.menu)| ==> old(d.menu)[i].id != id.value) ==>
      r.Err? && r.error.status == 404 && d.menu == old(d.menu)
    ensures GivenInt(id) && (exists i :: 0 <= i < |old(d.menu)| && old(d.menu)[i].id == id.value) ==>
      var k := IndexOfId(old(d.menu), id.value);
      && d.menu == old(d.menu)[k := ApplyEdit(old(d.menu)[k], e)]
      && r == Ok(d.menu[k])
  {
    if !GivenInt(id) {
      return Err(BadRequest("Item ID is required"));
    }
    var itemIndex := IndexOfId(d.menu, id.value);
    if itemIndex == -1 {
      return Err(NotFound("Menu item not found"));
    }
    var item := d.menu[itemIndex];
    if Given(e.name) { item := item.(name := e.name.value); }
    if GivenNumber(e.price) { item := item.(price := e.price.value); }
    if Given(e.category) { item := item.(category := e.category.value); }
    if e.description.Some? { item := item.(description := e.description.value); }
    if e.available.Some? { item := item.(available := e.available.value); }
    d.menu := d.menu[itemIndex := item];
    r := Ok(item);
  }

  /** An edit leaves every other item as it was and keeps ids unique. */
  lemma EditKeepsOthers(items: seq<MenuItem>, k: nat, e: MenuEdit)
    requires k < |items|
    ensures var r := items[k := ApplyEdit(items[k], e)];
      && |r| == |items|
      && (forall i :: 0 <= i < |items| && i != k ==> r[i] == items[i])
      && (UniqueIds(items) ==> UniqueIds(r))
  {
  }

  /** `items.splice(k, 1)`. */
  function RemoveAt(items: seq<MenuItem>, k: nat): seq<MenuItem>
    requires k < |items|
  {
    items[..k] + items[k + 1..]
  }

  /** POST `/api/menu/delete`: remove the first item with the id. */
  method DeleteItem(d: DataDir, id: Option<int>) returns (r: Result<()>)
    modifies d`menu
    ensures !GivenInt(id) ==> r.Err? && r.error.status == 400 && d.menu == old(d.menu)
    ensures GivenInt(id) && (forall i :: 0 <= i < |old(d.menu)| ==> old(d.menu)[i].id != id.value) ==>
      r.Err? && r.error.status == 404 && d.menu == old(d.menu)
    ensures GivenInt(id) && (exists i :: 0 <= i < |old(d.menu)| && old(d.menu)[i].id == id.value) ==>
      r == Ok(()) && d.menu == RemoveAt(old(d.menu), IndexOfId(old(d.menu), id.value))
  {
    if !GivenInt(id) {
      return Err(BadRequest("Item ID is required"));
    }
    var itemIndex := IndexOfId(d.menu, id.value);
    if itemIndex == -1 {
      return Err(NotFound("Menu item not found"));
    }
    d.menu := d.menu[..itemIndex] + d.menu[itemIndex + 1..];
    r := Ok(());
  }

  /** Deleting removes exactly the first item with the id: the items before it all
      have other ids, the rest keep their order, and one copy of it leaves the menu. */
  lemma DeleteRemovesFirst(items: seq<MenuItem>, id: int)
    requires exists i :: 0 <= i < |items| && items[i].id == id
    ensures var k := IndexOfId(items, id); var r := RemoveAt(items, k);
      && |r| == |items| - 1
      && (forall i :: 0 <= i < k ==> r[i] == items[i] && r[i].id != id)
      && (forall i :: k <= i < |r| ==> r[i] == items[i + 1])
      && multiset(items) == multiset(r) + multiset{items[k]}
  {
    var k := IndexOfId(items, id);
    var before, after := items[..k], items[k + 1..];
    assert items == before + [items[k]] + after;
    assert RemoveAt(items, k) == before + after;
    assert multiset(items) == multiset(before) + multiset{items[k]} + multiset(after);
  }

  /** On a menu with unique ids, deleting leaves ids unique and no item with the deleted id. */
  lemma DeleteLeavesNoCopy(items: seq<MenuItem>, id: int)
    requires exists i :: 0 <= i < |items| && items[i].id == id
    requires UniqueIds(items)
    ensures var r := RemoveAt(items, IndexOfId(items, id));
      UniqueIds(r) && forall i :: 0 <= i < |r| ==> r[i].id != id
  {
    var k := IndexOfId(items, id);
    var r := RemoveAt(items, k);
    assert forall i :: 0 <= i < |r| ==> r[i] == items[if i < k then i else i + 1];
  }
}

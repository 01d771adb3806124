/** The two shopping-cart backends behind one interface: a list embedded in one item, and a table of rows
    under a unique index. */
module Carts {
  import opened Options

  /** Prices are in cents. */
  datatype Line = Line(name: string, quantity: int, price: int)

  datatype CartItem = CartItem(product: string, line: Line)

  /** A cart as the interface returns it; timestamps are not part of it. */
  datatype Cart = Cart(customer: string, status: string, items: seq<CartItem>)

  // ---- Lists of items ----------------------------------------------------------------------------

  /** Replace the first line of the product, or append. */
  function Upsert(items: seq<CartItem>, item: CartItem): seq<CartItem> {
    if items == [] then [item]
    else if items[0].product == item.product then [item] + items[1..]
    else [items[0]] + Upsert(items[1..], item)
  }

  predicate NoProductTwice(items: seq<CartItem>) {
    forall i, j :: 0 <= i < j < |items| ==> items[i].product != items[j].product
  }

  function AsMap(items: seq<CartItem>): map<string, Line> {
    if items == [] then map[] else AsMap(items[1..])[items[0].product := items[0].line]
  }

  /** The map holds every line of a list without repeated products. */
  lemma {:induction false} AsMapLooksUp(items: seq<CartItem>, i: nat)
    requires NoProductTwice(items) && i < |items|
    ensures items[i].product in AsMap(items) && AsMap(items)[items[i].product] == items[i].line
  {
    if i == 0 {
    } else {
      AsMapLooksUp(items[1..], i - 1);
    }
  }

  /** On a list without repeated products the upsert is the map update, and no product is repeated after it. */
  lemma {:induction false} UpsertIsMapUpdate(items: seq<CartItem>, item: CartItem)
    requires NoProductTwice(items)
    ensures AsMap(Upsert(items, item)) == AsMap(items)[item.product := item.line]
    ensures NoProductTwice(Upsert(items, item))
    ensures forall i :: 0 <= i < |Upsert(items, item)| ==>
              Upsert(items, item)[i] == item || Upsert(items, item)[i] in items
  {
    if items == [] || items[0].product == item.product {
    } else {
      UpsertIsMapUpdate(items[1..], item);
      var rest := Upsert(items[1..], item);
      forall j | 0 <= j < |rest|
        ensures rest[j].product != items[0].product
      {
        if rest[j] != item {
          var k :| 0 <= k < |items[1..]| && items[1..][k] == rest[j];
          assert items[k + 1] == rest[j];
        }
      }
    }
  }

  // ---- The DynamoDB backend ----------------------------------------------------------------------

  type Table = map<string, Cart>

  function PutNew(t: Table, id: string, customer: string): Table {
    t[id := Cart(customer, "active", [])]
  }

  function PutItem(t: Table, id: string, item: CartItem): Table
    requires id in t
  {
    t[id := t[id].(items := Upsert(t[id].items, item))]
  }

  /** One step of the search for the product, `i` lines in. */
  lemma UpsertFrom(items: seq<CartItem>, i: nat, item: CartItem)
    requires i < |items|
    ensures items[i].product == item.product ==> items[..i] + Upsert(items[i..], item) == items[i := item]
    ensures items[i].product != item.product ==>
              items[..i] + Upsert(items[i..], item) == items[..i + 1] + Upsert(items[i + 1..], item)
  {
    assert items[i..][1..] == items[i + 1..];
    assert items[..i + 1] == items[..i] + [items[i]];
  }

  /** The loop over the cart's items: change the first line of the product and stop, or append. */
  method UpdateOrAppend(before: seq<CartItem>, item: CartItem) returns (items: seq<CartItem>)
    ensures items == Upsert(before, item)
  {
    items := before;
    for i := 0 to |before|
      invariant items == before
      invariant Upsert(before, item) == before[..i] + Upsert(before[i..], item)
    {
      UpsertFrom(before, i, item);
      if items[i].product == item.product {
        items := items[i := item];
        return;
      }
    }
    assert before[..|before|] == before && before[|before|..] == [];
    items := items + [item];
  }

  class DynamoStore {
    var table: Table

    constructor ()
      ensures table == map[]
    {
      table := map[];
    }

    /** `id` is the new UUID. PutItem overwrites without looking. */
    method CreateCart(id: string, customer: string) returns (cart: Option<Cart>)
      modifies this
      ensures table == PutNew(old(table), id, customer)
      ensures cart == Some(Cart(customer, "active", []))
    {
      var c := Cart(customer, "active", []);
      table := table[id := c];
      cart := Some(c);
    }

    method GetCart(id: string) returns (cart: Option<Cart>)
      ensures cart == if id in table then Some(table[id]) else None
    {
      cart := if id in table then Some(table[id]) else None;
    }

    /** Read, change the list in place, write the whole item back. */
    method AddItem(id: string, item: CartItem) returns (cart: Option<Cart>)
      modifies this
      ensures id !in old(table) ==> cart == None && table == old(table)
      ensures id in old(table) ==> table == PutItem(old(table), id, item) && cart == Some(table[id])
    {
      cart := GetCart(id);
      if cart.None? {
        return;
      }
      var items := UpdateOrAppend(cart.value.items, item);
      cart := Some(cart.value.(items := items));
      table := table[id := cart.value];
    }
  }

  // ---- The MySQL backend -------------------------------------------------------------------------

  datatype CartRow = CartRow(customer: string, status: string)

  datatype ItemRow = ItemRow(cart: string, item: CartItem)

  datatype Tables = Tables(carts: map<string, CartRow>, rows: seq<ItemRow>)

  /** INSERT ... ON DUPLICATE KEY UPDATE under the unique index (cart_id, product_id). */
  function UpsertRow(rows: seq<ItemRow>, cart: string, item: CartItem): seq<ItemRow> {
    if rows == [] then [ItemRow(cart, item)]
    else if rows[0].cart == cart && rows[0].item.product == item.product then [ItemRow(cart, item)] + rows[1..]
    else [rows[0]] + UpsertRow(rows[1..], cart, item)
  }

  /** SELECT ... WHERE cart_id = ?, in table order. */
  function ItemsOf(rows: seq<ItemRow>, cart: string): seq<CartItem> {
    if rows == [] then []
    else (if rows[0].cart == cart then [rows[0].item] else []) + ItemsOf(rows[1..], cart)
  }

  function CartOf(t: Tables, id: string): Cart
    requires id in t.carts
  {
    Cart(t.carts[id].customer, t.carts[id].status, ItemsOf(t.rows, id))
  }

  class MySQLStore {
    var carts: map<string, CartRow>
    var rows: seq<ItemRow>

    ghost function View(): Tables
      reads this
    {
      Tables(carts, rows)
    }

    constructor ()
      ensures View() == Tables(map[], [])
    {
      carts, rows := map[], [];
    }

    /** The primary key refuses an id that is already there. */
    method CreateCart(id: string, customer: string) returns (cart: Option<Cart>)
      modifies this`carts
      ensures id in old(carts) ==> cart == None && carts == old(carts)
      ensures id !in old(carts) ==> carts == old(carts)[id := CartRow(customer, "active")]
                                    && cart == Some(Cart(customer, "active", []))
    {
      if id in carts {
        return None;
      }
      carts := carts[id := CartRow(customer, "active")];
      cart := Some(Cart(customer, "active", []));
    }

    method GetCart(id: string) returns (cart: Option<Cart>)
      ensures cart == if id in carts then Some(CartOf(View(), id)) else None
    {
      if id !in carts {
        return None;
      }
      var items := [];
      for i := 0 to |rows|
        invariant ItemsOf(rows, id) == items + ItemsOf(rows[i..], id)
      {
        assert rows[i..][1..] == rows[i + 1..];
        if rows[i].cart == id {
          items := items + [rows[i].item];
        }
      }
      assert rows[|rows|..] == [] && ItemsOf(rows, id) == items;
      cart := Some(Cart(carts[id].customer, carts[id].status, items));
    }

    method AddItem(id: string, item: CartItem) returns (cart: Option<Cart>)
      modifies this`rows
      ensures id !in carts ==> cart == None && rows == old(rows)
      ensures id in carts ==> rows == UpsertRow(old(rows), id, item) && cart == Some(CartOf(View(), id))
    {
      if id !in carts {
        return None;
      }
      rows := UpsertRow(rows, id, item);
      cart := GetCart(id);
    }
  }

  // ---- The same calls on both --------------------------------------------------------------------

  datatype Call = Create(id: string, customer: string) | Add(id: string, item: CartItem) | Get(id: string)

  /** What a client sees: an error, or a cart whose items it looks up by product. */
  datatype Response = Error | Shows(customer: string, status: string, items: map<string, Line>)

  function Shown(cart: Cart): Response {
    Shows(cart.customer, cart.status, AsMap(cart.items))
  }

  function DynamoNext(t: Table, c: Call): (Table, Response) {
    match c
    case Create(id, customer) => (PutNew(t, id, customer), Shown(Cart(customer, "active", [])))
    case Add(id, item) =>
      if id in t then (PutItem(t, id, item), Shown(PutItem(t, id, item)[id])) else (t, Error)
    case Get(id) => (t, if id in t then Shown(t[id]) else Error)
  }

  function MySQLNext(t: Tables, c: Call): (Tables, Response) {
    match c
    case Create(id, customer) =>
      if id in t.carts then (t, Error)
      else (t.(carts := t.carts[id := CartRow(customer, "active")]), Shown(Cart(customer, "active", [])))
    case Add(id, item) =>
      if id in t.carts then
        var after := t.(rows := UpsertRow(t.rows, id, item));
        (after, Shown(CartOf(after, id)))
      else (t, Error)
    case Get(id) => (t, if id in t.carts then Shown(CartOf(t, id)) else Error)
  }

  function DynamoRun(cs: seq<Call>): Table {
    if cs == [] then map[] else DynamoNext(DynamoRun(cs[..|cs| - 1]), cs[|cs| - 1]).0
  }

  function MySQLRun(cs: seq<Call>): Tables {
    if cs == [] then Tables(map[], []) else MySQLNext(MySQLRun(cs[..|cs| - 1]), cs[|cs| - 1]).0
  }

  /** Both backends hold the same carts, without a product twice, and no rows belong to a missing cart. */
  ghost predicate SameCarts(d: Table, m: Tables) {
    && d.Keys == m.carts.Keys
    && (forall id :: id in d ==> d[id] == CartOf(m, id) && NoProductTwice(d[id].items))
    && (forall i :: 0 <= i < |m.rows| ==> m.rows[i].cart in m.carts)
  }

  lemma {:induction false} RowUpsertIsListUpsert(rows: seq<ItemRow>, cart: string, item: CartItem, id: string)
    ensures ItemsOf(UpsertRow(rows, cart, item), id)
         == if id == cart then Upsert(ItemsOf(rows, cart), item) else ItemsOf(rows, id)
    ensures forall i :: 0 <= i < |UpsertRow(rows, cart, item)| ==>
              UpsertRow(rows, cart, item)[i].cart == cart || UpsertRow(rows, cart, item)[i] in rows
  {
    if rows == [] {
    } else {
      var others := ItemsOf(rows[1..], id);
      assert ItemsOf(rows, id) == if rows[0].cart == id then [rows[0].item] + others else others;
      assert ([rows[0].item] + others)[1..] == others;
      if rows[0].cart == cart && rows[0].item.product == item.product {
        assert UpsertRow(rows, cart, item)[1..] == rows[1..];
      } else {
        RowUpsertIsListUpsert(rows[1..], cart, item, id);
        assert UpsertRow(rows, cart, item)[1..] == UpsertRow(rows[1..], cart, item);
      }
    }
  }

  lemma {:induction false} NoRowsNoItems(rows: seq<ItemRow>, id: string)
    requires forall i :: 0 <= i < |rows| ==> rows[i].cart != id
    ensures ItemsOf(rows, id) == []
  {
    if rows == [] {
    } else {
      NoRowsNoItems(rows[1..], id);
    }
  }

  lemma AddKeepsSameCarts(d: Table, m: Tables, id: string, item: CartItem)
    requires SameCarts(d, m) && id in d
    ensures SameCarts(DynamoNext(d, Add(id, item)).0, MySQLNext(m, Add(id, item)).0)
  {
    var d', m' := DynamoNext(d, Add(id, item)).0, MySQLNext(m, Add(id, item)).0;
    forall x | x in d'
      ensures d'[x] == CartOf(m', x) && NoProductTwice(d'[x].items)
    {
      RowUpsertIsListUpsert(m.rows, id, item, x);
      UpsertIsMapUpdate(d[id].items, item);
    }
    RowUpsertIsListUpsert(m.rows, id, item, id);
  }

  lemma CallKeepsSameCarts(d: Table, m: Tables, c: Call)
    requires SameCarts(d, m) && (c.Create? ==> c.id !in d)
    ensures SameCarts(DynamoNext(d, c).0, MySQLNext(m, c).0)
    ensures DynamoNext(d, c).1 == MySQLNext(m, c).1
  {
    match c
    case Create(id, customer) => NoRowsNoItems(m.rows, id);
    case Add(id, item) =>
      if id in d {
        AddKeepsSameCarts(d, m, id, item);
      }
    case Get(_) =>
  }

  /** No UUID is drawn twice. */
  predicate FreshIds(cs: seq<Call>) {
    forall i, j :: 0 <= i < j < |cs| && cs[i].Create? && cs[j].Create? ==> cs[i].id != cs[j].id
  }

  lemma {:induction false} CreatedIds(cs: seq<Call>)
    ensures forall id :: id in DynamoRun(cs) <==> exists i :: 0 <= i < |cs| && cs[i].Create? && cs[i].id == id
  {
    if cs == [] {
    } else {
      var init := cs[..|cs| - 1];
      CreatedIds(init);
      forall id
        ensures id in DynamoRun(cs) <==> exists i :: 0 <= i < |cs| && cs[i].Create? && cs[i].id == id
      {
        if id in DynamoRun(init) {
          var i :| 0 <= i < |init| && init[i].Create? && init[i].id == id;
          assert cs[i].Create? && cs[i].id == id;
        }
        if i :| 0 <= i < |cs| && cs[i].Create? && cs[i].id == id && i < |init| {
          assert init[i].Create? && init[i].id == id;
        }
      }
    }
  }

  lemma {:induction false} FreshRunsStayEqual(cs: seq<Call>)
    requires FreshIds(cs)
    ensures SameCarts(DynamoRun(cs), MySQLRun(cs))
  {
    if cs == [] {
    } else {
      var init := cs[..|cs| - 1];
      FreshRunsStayEqual(init);
      NewIdIsFresh(cs, |cs| - 1);
      CallKeepsSameCarts(DynamoRun(init), MySQLRun(init), cs[|cs| - 1]);
    }
  }

  lemma NewIdIsFresh(cs: seq<Call>, n: nat)
    requires FreshIds(cs) && n < |cs|
    ensures cs[n].Create? ==> cs[n].id !in DynamoRun(cs[..n])
  {
    CreatedIds(cs[..n]);
    forall i | 0 <= i < n && cs[..n][i].Create? && cs[n].Create?
      ensures cs[..n][i].id != cs[n].id
    {
      assert cs[..n][i] == cs[i];
    }
  }

  // ---- What a cart shows -------------------------------------------------------------------------

  /** Who created the cart, by the calls alone. */
  function Owner(cs: seq<Call>, id: string): Option<string> {
    if cs == [] then None
    else
      var last := cs[|cs| - 1];
      if last.Create? && last.id == id then Some(last.customer) else Owner(cs[..|cs| - 1], id)
  }

  /** The line of the newest Add of the product since the cart was created. */
  function LastAdded(cs: seq<Call>, id: string, product: string): Option<Line> {
    if cs == [] then None
    else
      var last := cs[|cs| - 1];
      if last.id != id || last.Get? then LastAdded(cs[..|cs| - 1], id, product)
      else if last.Create? then None
      else if last.item.product == product then Some(last.item.line)
      else LastAdded(cs[..|cs| - 1], id, product)
  }

  /** The items list, product by product, exactly the newest Adds. */
  ghost predicate ListsLastAdds(items: seq<CartItem>, cs: seq<Call>, id: string) {
    && NoProductTwice(items)
    && (forall i :: 0 <= i < |items| ==> LastAdded(cs, id, items[i].product) == Some(items[i].line))
    && (forall p :: LastAdded(cs, id, p).Some? ==> CartItem(p, LastAdded(cs, id, p).value) in items)
  }

  lemma ListsAfterAdd(items: seq<CartItem>, cs: seq<Call>, id: string, item: CartItem)
    requires ListsLastAdds(items, cs, id)
    ensures ListsLastAdds(Upsert(items, item), cs + [Add(id, item)], id)
  {
    var more := cs + [Add(id, item)];
    assert more[..|cs|] == cs;
    UpsertIsMapUpdate(items, item);
    var after := Upsert(items, item);
    forall i | 0 <= i < |after|
      ensures LastAdded(more, id, after[i].product) == Some(after[i].line)
    {
      UpsertReplaces(items, item);
    }
    forall p | LastAdded(more, id, p).Some?
      ensures CartItem(p, LastAdded(more, id, p).value) in after
    {
      UpsertReplaces(items, item);
    }
  }

  /** The upsert holds the new item, no other line of its product, and every line of the other products. */
  lemma {:induction false} UpsertReplaces(items: seq<CartItem>, item: CartItem)
    requires NoProductTwice(items)
    ensures forall x :: x in Upsert(items, item) <==> x == item || (x in items && x.product != item.product)
  {
    if items == [] {
    } else if items[0].product == item.product {
      assert items == [items[0]] + items[1..];
    } else {
      UpsertReplaces(items[1..], item);
      assert items == [items[0]] + items[1..];
    }
  }

  /** Whatever the calls before, a DynamoDB cart exists exactly when it was created, belongs to whoever created
      it last, and lists for every product exactly the line of the newest Add since then. */
  lemma {:induction false} CartHoldsLastAdds(cs: seq<Call>, id: string)
    ensures id in DynamoRun(cs) <==> Owner(cs, id).Some?
    ensures id in DynamoRun(cs) ==>
              && DynamoRun(cs)[id].customer == Owner(cs, id).value
              && DynamoRun(cs)[id].status == "active"
              && ListsLastAdds(DynamoRun(cs)[id].items, cs, id)
  {
    if cs == [] {
    } else {
      var init, last := cs[..|cs| - 1], cs[|cs| - 1];
      assert cs == init + [last];
      CartHoldsLastAdds(init, id);
      if last.Add? && last.id == id && id in DynamoRun(init) {
        ListsAfterAdd(DynamoRun(init)[id].items, init, id, last.item);
      }
    }
  }

  /** The answer to a Get that the calls before it call for. */
  ghost predicate ShowsLastAdds(r: Response, cs: seq<Call>, id: string) {
    match Owner(cs, id)
    case None => r == Error
    case Some(customer) =>
      && r.Shows? && r.customer == customer && r.status == "active"
      && forall p :: LastAdded(cs, id, p) == if p in r.items then Some(r.items[p]) else None
  }

  lemma ShownLines(cart: Cart, cs: seq<Call>, id: string)
    requires ListsLastAdds(cart.items, cs, id)
    ensures forall p :: LastAdded(cs, id, p) == if p in AsMap(cart.items) then Some(AsMap(cart.items)[p]) else None
  {
    forall p
      ensures LastAdded(cs, id, p) == if p in AsMap(cart.items) then Some(AsMap(cart.items)[p]) else None
    {
      if p in AsMap(cart.items) {
        var i := ListedProduct(cart.items, p);
        AsMapLooksUp(cart.items, i);
      } else if LastAdded(cs, id, p).Some? {
        var i :| 0 <= i < |cart.items| && cart.items[i] == CartItem(p, LastAdded(cs, id, p).value);
        AsMapLooksUp(cart.items, i);
      }
    }
  }

  lemma {:induction false} ListedProduct(items: seq<CartItem>, p: string) returns (i: nat)
    requires p in AsMap(items)
    ensures i < |items| && items[i].product == p
  {
    if items[0].product == p {
      i := 0;
    } else {
      i := ListedProduct(items[1..], p);
      i := i + 1;
    }
  }

  /** A client reads what clients wrote: after any calls DynamoDB answers a Get with the newest Adds, and MySQL
      does too when no cart id was drawn twice. */
  lemma GetShowsLastAdds(cs: seq<Call>, id: string)
    ensures ShowsLastAdds(DynamoNext(DynamoRun(cs), Get(id)).1, cs, id)
    ensures FreshIds(cs) ==> ShowsLastAdds(MySQLNext(MySQLRun(cs), Get(id)).1, cs, id)
  {
    CartHoldsLastAdds(cs, id);
    if id in DynamoRun(cs) {
      ShownLines(DynamoRun(cs)[id], cs, id);
    }
    if FreshIds(cs) {
      FreshRunsStayEqual(cs);
      CallKeepsSameCarts(DynamoRun(cs), MySQLRun(cs), Get(id));
    }
  }

  // ---- When the backends agree -------------------------------------------------------------------

  /** Every call of the run gets the same response from both backends. */
  ghost predicate BackendsAgree(cs: seq<Call>) {
    forall n :: 0 <= n < |cs| ==> DynamoNext(DynamoRun(cs[..n]), cs[n]).1 == MySQLNext(MySQLRun(cs[..n]), cs[n]).1
  }

  /** Over any sequence of calls that do not overlap the two backends answer alike if and only if no cart id
      is drawn twice. */
  lemma BackendsAgreeExactly(cs: seq<Call>)
    ensures BackendsAgree(cs) <==> FreshIds(cs)
  {
    if FreshIds(cs) {
      forall n | 0 <= n < |cs|
        ensures DynamoNext(DynamoRun(cs[..n]), cs[n]).1 == MySQLNext(MySQLRun(cs[..n]), cs[n]).1
      {
        FreshRunsStayEqual(cs[..n]);
        NewIdIsFresh(cs, n);
        CallKeepsSameCarts(DynamoRun(cs[..n]), MySQLRun(cs[..n]), cs[n]);
      }
    } else {
      var n := FirstRepeat(cs);
      FreshRunsStayEqual(cs[..n]);
    }
  }

  /** Runs that tell the backends apart: an id drawn again after an item was added, whoever the customers are.
      MySQL refuses the second Create and keeps the item; DynamoDB hands the emptied cart to the second customer. */
  lemma RepeatedIdTellsApart(id: string, customer: string, other: string, item: CartItem)
    ensures var before := [Create(id, customer), Add(id, item)];
            var cs := before + [Create(id, other)];
            && !BackendsAgree(cs)
            && MySQLNext(MySQLRun(before), Create(id, other)).1 == Error
            && MySQLNext(MySQLRun(cs), Get(id)).1 == Shows(customer, "active", map[item.product := item.line])
            && DynamoNext(DynamoRun(cs), Get(id)).1 == Shows(other, "active", map[])
  {
    var one := [Create(id, customer)];
    var before := one + [Add(id, item)];
    var cs := before + [Create(id, other)];
    assert one[..0] == [] && before[..1] == one && cs[..2] == before;
    assert before == [Create(id, customer), Add(id, item)];
    assert MySQLRun(one) == Tables(map[id := CartRow(customer, "active")], []);
    assert MySQLRun(before) == Tables(map[id := CartRow(customer, "active")], [ItemRow(id, item)]);
    assert MySQLRun(cs) == MySQLRun(before);
    assert [ItemRow(id, item)][1..] == [] && ItemsOf([ItemRow(id, item)], id) == [item];
    assert AsMap([item]) == map[item.product := item.line];
    assert cs[0].Create? && cs[2].Create? && cs[0].id == cs[2].id;
    BackendsAgreeExactly(cs);
  }

  /** The first call that draws a known id: MySQL refuses it, DynamoDB does not. */
  lemma {:induction false} FirstRepeat(cs: seq<Call>) returns (n: nat)
    requires !FreshIds(cs)
    ensures n < |cs| && FreshIds(cs[..n]) && cs[n].Create? && cs[n].id in DynamoRun(cs[..n])
  {
    var init := cs[..|cs| - 1];
    if FreshIds(init) {
      n := |cs| - 1;
      var i, j :| 0 <= i < j < |cs| && cs[i].Create? && cs[j].Create? && cs[i].id == cs[j].id;
      assert forall a :: 0 <= a < |init| ==> init[a] == cs[a];
      CreatedIds(init);
      assert init[i].Create? && init[i].id == cs[n].id;
    } else {
      n := FirstRepeat(init);
      assert init[..n] == cs[..n];
    }
  }
}

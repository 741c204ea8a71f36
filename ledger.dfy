/**
 * The ledger core of the stock manager: the eight tables of app.py:90-167 as
 * the fields of one object, and one method per state-changing page action.
 * Every successful change appends exactly one activity-log row; a rejected
 * action writes nothing. Role checks, the session and the clock belong to
 * the caller: the acting username and today's date are parameters.
 */
module Ledger {
  import opened Wrappers
  import opened Schema
  import opened Text
  import opened Credentials
  import opened Sales
  import opened CustomerEdit

  /** The three-way answer of the flavor form, plus the blank-name case. */
  datatype FlavorOutcome = FlavorAdded(id: nat) | FlavorReactivated(id: nat) | FlavorExists | BlankName

  /** The three-way answer of the customer form for a new customer. */
  datatype CustomerOutcome = CustomerAdded(id: nat) | CustomerReactivated(id: nat) | CustomerExists

  datatype SaleOutcome = SaleRecorded(id: nat) | EmptySale

  datatype UserOutcome = UserCreated(id: nat) | UsernameExists | MissingField

  class Database {
    var flavors: seq<Flavor>
    /** The `inventory` table: flavor id to stock. */
    var stock: map<nat, int>
    var customers: seq<Customer>
    var sales: seq<Sale>
    var saleItems: seq<SaleItem>
    var returnRecords: seq<Return>
    var users: seq<User>
    var log: seq<LogEntry>

    /**
     * What every action keeps: each flavor has exactly one inventory row and
     * no stock is negative; flavor names are unique, stripped and non-empty;
     * usernames are unique; sales and sale items refer to existing rows.
     */
    ghost predicate Valid()
      reads this
    {
      && (forall f: nat :: f in stock <==> f < |flavors|)
      && (forall f :: f in stock ==> stock[f] >= 0)
      && UniqueFlavorNames(flavors)
      && (forall i :: 0 <= i < |flavors| ==> IsStripped(flavors[i].name))
      && UniqueUsernames(users)
      && (forall i :: 0 <= i < |sales| ==> sales[i].customerId < |customers|)
      && (forall k :: 0 <= k < |saleItems| ==>
            saleItems[k].saleId < |sales| && saleItems[k].flavorId < |flavors| && saleItems[k].quantity > 0)
    }

    /** `create_tables()` on an empty database. */
    constructor ()
      ensures Valid()
      ensures flavors == [] && stock == map[] && customers == [] && sales == [] && saleItems == []
      ensures returnRecords == [] && users == [] && log == []
    {
      flavors, stock, customers := [], map[], [];
      sales, saleItems, returnRecords := [], [], [];
      users, log := [], [];
    }

    /** INIT ADMIN: an empty user table receives the default administrator. */
    method Bootstrap()
      requires Valid()
      modifies this`users
      ensures Valid()
      ensures users == if old(users) == [] then [DefaultAdmin] else old(users)
    {
      if users == [] {
        users := [DefaultAdmin];
      }
    }

    /** `log(action)`: one activity row attributed to the acting user, dated today. */
    method Log(actor: string, action: Action, today: string)
      modifies this`log
      ensures log == old(log) + [LogEntry(actor, action, today)]
    {
      log := log + [LogEntry(actor, action, today)];
    }

    /**
     * The flavor form. The name is stripped; a blank name does nothing. A new
     * name gets a new active flavor and an inventory row with stock 0. A name
     * held by an inactive flavor reactivates that row and resets its stock to
     * 0. A name held by an active flavor is rejected.
     */
    method AddFlavor(name: string, actor: string, today: string) returns (out: FlavorOutcome)
      requires Valid()
      modifies this`flavors, this`stock, this`log
      ensures Valid()
      ensures Strip(name) == [] ==>
        out == BlankName && flavors == old(flavors) && stock == old(stock) && log == old(log)
      ensures Strip(name) != [] && FindFlavor(old(flavors), Strip(name)).None? ==>
        && out == FlavorAdded(|old(flavors)|)
        && flavors == old(flavors) + [Flavor(Strip(name), true)]
        && |old(flavors)| !in old(stock)
        && stock == old(stock)[|old(flavors)| := 0]
        && log == old(log) + [LogEntry(actor, AddedFlavor(Strip(name)), today)]
      ensures Strip(name) != [] && FindFlavor(old(flavors), Strip(name)).Some? ==>
        var fid := FindFlavor(old(flavors), Strip(name)).value;
        if old(flavors)[fid].active then
          out == FlavorExists && flavors == old(flavors) && stock == old(stock) && log == old(log)
        else
          && out == FlavorReactivated(fid)
          && flavors == old(flavors)[fid := Flavor(Strip(name), true)]
          && stock == old(stock)[fid := 0]
          && log == old(log) + [LogEntry(actor, ReactivatedFlavor(Strip(name)), today)]
    {
      var fname := Strip(name);
      if fname == [] {
        return BlankName;
      }
      match FindFlavor(flavors, fname)
      case None =>
        var fid := InsertFlavor(fname);
        Log(actor, AddedFlavor(fname), today);
        out := FlavorAdded(fid);
      case Some(fid) =>
        if flavors[fid].active {
          out := FlavorExists;
        } else {
          ReactivateFlavor(fid);
          Log(actor, ReactivatedFlavor(fname), today);
          out := FlavorReactivated(fid);
        }
    }

    /** `INSERT INTO flavors(name)` and its `INSERT INTO inventory(flavor_id, stock) VALUES(id, 0)`. */
    method InsertFlavor(fname: string) returns (fid: nat)
      requires Valid()
      requires IsStripped(fname) && FindFlavor(flavors, fname).None?
      modifies this`flavors, this`stock
      ensures Valid()
      ensures fid == |old(flavors)| && fid !in old(stock)
      ensures flavors == old(flavors) + [Flavor(fname, true)]
      ensures stock == old(stock)[fid := 0]
    {
      fid := |flavors|;
      flavors := flavors + [Flavor(fname, true)];
      stock := stock[fid := 0];
    }

    /** `UPDATE flavors SET active=TRUE` and `UPDATE inventory SET stock=0` for one row. */
    method ReactivateFlavor(fid: nat)
      requires Valid()
      requires fid < |flavors|
      modifies this`flavors, this`stock
      ensures Valid()
      ensures fid in old(stock)
      ensures flavors == old(flavors)[fid := old(flavors)[fid].(active := true)]
      ensures stock == old(stock)[fid := 0]
    {
      flavors := flavors[fid := flavors[fid].(active := true)];
      stock := stock[fid := 0];
    }

    /**
     * The delete button of a flavor row: only its active flag changes; its
     * inventory row, its stock and the sale items naming it stay.
     */
    method DeleteFlavor(fid: nat, actor: string, today: string)
      requires Valid()
      requires fid < |flavors|
      modifies this`flavors, this`log
      ensures Valid()
      ensures flavors == old(flavors)[fid := old(flavors)[fid].(active := false)]
      ensures stock == old(stock) && saleItems == old(saleItems)
      ensures log == old(log) + [LogEntry(actor, DeletedFlavor(old(flavors)[fid].name), today)]
    {
      var f := flavors[fid];
      flavors := flavors[fid := f.(active := false)];
      Log(actor, DeletedFlavor(f.name), today);
    }

    /**
     * The Add Stock page: the active flavor selected by name gains exactly
     * `qty` boxes; every other stock is unchanged.
     */
    method Restock(flavor: string, qty: int, actor: string, today: string)
      requires Valid()
      requires FindFlavor(flavors, flavor).Some? && flavors[FindFlavor(flavors, flavor).value].active
      requires qty >= 1
      modifies this`stock, this`log
      ensures Valid()
      ensures var fid := FindFlavor(flavors, flavor).value;
        fid in old(stock) && stock == old(stock)[fid := old(stock)[fid] + qty]
      ensures log == old(log) + [LogEntry(actor, AddedStock(qty, flavor), today)]
    {
      var fid := FindFlavor(flavors, flavor).value;
      stock := stock[fid := stock[fid] + qty];
      Log(actor, AddedStock(qty, flavor), today);
    }

    /**
     * The Save Sale button. `entries` holds one quantity box per active
     * flavor row of the form, each bounded by 0 and that flavor's stock. With
     * no positive quantity nothing is written. Otherwise one sale header is
     * added for the first active customer with the selected name, then one
     * sale item per positive entry, and each sold flavor's stock drops by its
     * quantity; no stock becomes negative.
     */
    method RecordSale(customer: string, boxes: nat, entries: seq<Entry>, actor: string, today: string)
      returns (out: SaleOutcome)
      requires Valid()
      requires FirstActiveCustomer(customers, customer).Some?
      requires DistinctFlavors(entries)
      requires forall k :: 0 <= k < |entries| ==>
        && entries[k].flavorId < |flavors| && flavors[entries[k].flavorId].active
        && 0 <= entries[k].quantity <= stock[entries[k].flavorId]
      modifies this`sales, this`saleItems, this`stock, this`log
      ensures Valid()
      ensures Selected(entries) == [] ==>
        && out == EmptySale
        && sales == old(sales) && saleItems == old(saleItems) && stock == old(stock) && log == old(log)
      ensures Selected(entries) != [] ==>
        && out == SaleRecorded(|old(sales)|)
        && sales == old(sales) + [Sale(FirstActiveCustomer(customers, customer).value, boxes, today, actor)]
        && saleItems == old(saleItems) + Lines(|old(sales)|, Selected(entries))
        && stock == Deducted(old(stock), Selected(entries))
        && log == old(log) + [LogEntry(actor, SaleTo(customer), today)]
    {
      var items := Selected(entries);
      if items == [] {
        return EmptySale;
      }
      SelectedDistinct(entries);
      SelectedWithin(entries, stock, |flavors|);
      var sid := WriteSale(FirstActiveCustomer(customers, customer).value, boxes, items, actor, today);
      Log(actor, SaleTo(customer), today);
      out := SaleRecorded(sid);
    }

    /**
     * The writes of the Save Sale button (app.py:703-728): the header, then
     * the items. Each flavor appears once and sells at most its stock, so no
     * stock becomes negative.
     */
    method WriteSale(cid: nat, boxes: nat, items: seq<Entry>, actor: string, today: string) returns (sid: nat)
      requires Valid()
      requires cid < |customers|
      requires DistinctFlavors(items)
      requires forall k :: 0 <= k < |items| ==>
        && items[k].flavorId < |flavors| && items[k].flavorId in stock
        && 0 < items[k].quantity <= stock[items[k].flavorId]
      modifies this`sales, this`saleItems, this`stock
      ensures Valid()
      ensures sid == |old(sales)|
      ensures sales == old(sales) + [Sale(cid, boxes, today, actor)]
      ensures saleItems == old(saleItems) + Lines(sid, items)
      ensures stock == Deducted(old(stock), items)
    {
      DeductedBounds(stock, items);
      sid := |sales|;
      sales := sales + [Sale(cid, boxes, today, actor)];
      WriteItems(sid, items);
    }

    /**
     * The loop of the Save Sale button (app.py:717-728): for each item in
     * order, insert its sale-item row, then take its quantity off its
     * flavor's stock.
     */
    method WriteItems(sid: nat, items: seq<Entry>)
      modifies this`saleItems, this`stock
      ensures saleItems == old(saleItems) + Lines(sid, items)
      ensures stock == Deducted(old(stock), items)
    {
      var k := 0;
      assert items[..0] == [];
      while k < |items|
        invariant 0 <= k <= |items|
        invariant saleItems == old(saleItems) + Lines(sid, items[..k])
        invariant stock == Deducted(old(stock), items[..k])
      {
        var item := items[k];
        assert items[..k + 1][..k] == items[..k];
        saleItems := saleItems + [SaleItem(sid, item.flavorId, item.quantity)];
        if item.flavorId in stock {
          stock := stock[item.flavorId := stock[item.flavorId] - item.quantity];
        }
        k := k + 1;
      }
      assert items[..k] == items;
    }

    /**
     * The Save Return button: one appended row, no effect on stock or sales.
     * With no active customer the selection is empty (`None`), and the row is
     * stored with a NULL customer name all the same.
     */
    method RecordReturn(
      customer: Option<string>, returned: nat, damagedBoxes: nat, damagedBottles: nat,
      note: string, actor: string, today: string)
      requires Valid()
      modifies this`returnRecords, this`log
      ensures Valid()
      ensures returnRecords == old(returnRecords) + [Return(customer, today, returned, damagedBoxes, damagedBottles, note, actor)]
      ensures log == old(log) + [LogEntry(actor, ReturnFrom(customer), today)]
    {
      returnRecords := returnRecords + [Return(customer, today, returned, damagedBoxes, damagedBottles, note, actor)];
      Log(actor, ReturnFrom(customer), today);
    }

    /**
     * The customer form with "New" selected. The name is looked up as typed,
     * active or not, taking the first match. No match inserts an active
     * customer; an inactive match is reactivated with the typed phone, shop
     * and area; an active match is rejected.
     */
    method AddCustomer(name: string, phone: string, shop: string, area: string, actor: string, today: string)
      returns (out: CustomerOutcome)
      requires Valid()
      modifies this`customers, this`log
      ensures Valid()
      ensures FindCustomer(old(customers), name).None? ==>
        && out == CustomerAdded(|old(customers)|)
        && customers == old(customers) + [Customer(name, phone, shop, area, true)]
        && log == old(log) + [LogEntry(actor, AddedCustomer(name), today)]
      ensures FindCustomer(old(customers), name).Some? ==>
        var c := FindCustomer(old(customers), name).value;
        if old(customers)[c].active then
          out == CustomerExists && customers == old(customers) && log == old(log)
        else
          && out == CustomerReactivated(c)
          && customers == old(customers)[c := Customer(name, phone, shop, area, true)]
          && log == old(log) + [LogEntry(actor, ReactivatedCustomer(name), today)]
    {
      match FindCustomer(customers, name)
      case None =>
        out := CustomerAdded(|customers|);
        customers := customers + [Customer(name, phone, shop, area, true)];
        Log(actor, AddedCustomer(name), today);
      case Some(c) =>
        if customers[c].active {
          out := CustomerExists;
        } else {
          customers := customers[c := Customer(name, phone, shop, area, true)];
          Log(actor, ReactivatedCustomer(name), today);
          out := CustomerReactivated(c);
        }
    }

    /**
     * The customer form with an existing customer selected: the active
     * customer with that name and the highest id takes the typed values (the
     * corrected behaviour, see `CustomerEdit`).
     */
    method UpdateCustomer(selected: string, typed: Fields, actor: string, today: string)
      requires Valid()
      requires LastActiveCustomer(customers, selected).Some?
      modifies this`customers, this`log
      ensures Valid()
      ensures var c := LastActiveCustomer(old(customers), selected).value;
        customers == old(customers)[c := Edited(old(customers)[c], typed)]
      ensures log == old(log) + [LogEntry(actor, UpdatedCustomer(typed.name), today)]
    {
      var c := LastActiveCustomer(customers, selected).value;
      customers := customers[c := Edited(customers[c], typed)];
      Log(actor, UpdatedCustomer(typed.name), today);
    }

    /** The delete button of a customer row: only its active flag changes. */
    method DeleteCustomer(c: nat, actor: string, today: string)
      requires Valid()
      requires c < |customers|
      modifies this`customers, this`log
      ensures Valid()
      ensures customers == old(customers)[c := old(customers)[c].(active := false)]
      ensures log == old(log) + [LogEntry(actor, DeletedCustomer(old(customers)[c].name), today)]
    {
      var row := customers[c];
      customers := customers[c := row.(active := false)];
      Log(actor, DeletedCustomer(row.name), today);
    }

    /**
     * The Create button of the user form. An empty username or password does
     * nothing; a taken username is rejected without a log row; otherwise the
     * user is stored with the digest of the password.
     */
    method CreateUser(username: string, password: string, role: Role, actor: string, today: string)
      returns (out: UserOutcome)
      requires Valid()
      modifies this`users, this`log
      ensures Valid()
      ensures username == [] || password == [] ==>
        out == MissingField && users == old(users) && log == old(log)
      ensures username != [] && password != [] && FindUser(old(users), username).Some? ==>
        out == UsernameExists && users == old(users) && log == old(log)
      ensures username != [] && password != [] && FindUser(old(users), username).None? ==>
        && out == UserCreated(|old(users)|)
        && users == old(users) + [User(username, HashPass(password), role)]
        && log == old(log) + [LogEntry(actor, CreatedUser(username), today)]
    {
      if username == [] || password == [] {
        return MissingField;
      }
      if FindUser(users, username).Some? {
        return UsernameExists;
      }
      out := UserCreated(|users|);
      users := users + [User(username, HashPass(password), role)];
      Log(actor, CreatedUser(username), today);
    }
  }
}

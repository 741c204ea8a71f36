/**
 * The rows of the eight tables created by `create_tables` (app.py:90-167) and
 * the single-row lookups the page handlers run against them. A row's id is
 * its position in its table: rows are never physically deleted, only marked
 * inactive.
 */
module Schema {
  import opened Wrappers

  /** `flavors(id, name UNIQUE, active)`. */
  datatype Flavor = Flavor(name: string, active: bool)

  /** `customers(id, name, phone, shop, area, active)`; `name` is not unique. */
  datatype Customer = Customer(name: string, phone: string, shop: string, area: string, active: bool)

  /** `sales(id, customer_id, total_boxes, sale_date, created_by)`. */
  datatype Sale = Sale(customerId: nat, totalBoxes: nat, saleDate: string, createdBy: string)

  /** `sale_items(id, sale_id, flavor_id, quantity)`. */
  datatype SaleItem = SaleItem(saleId: nat, flavorId: nat, quantity: int)

  /**
   * `returns(...)`: free-text customer name, no link to sales or inventory.
   * The name is `None` (NULL) when the customer list was empty.
   */
  datatype Return = Return(
    customerName: Option<string>, returnDate: string,
    returnedBoxes: nat, damagedBoxes: nat, damagedBottles: nat,
    note: string, createdBy: string)

  datatype Role = Staff | Admin

  /**
   * The stored form of a password, `hash_pass(p)`. SHA-256 itself is not
   * modelled; a constructor stands for it because the ledger only relies on
   * two passwords having the same digest exactly when they are equal.
   */
  datatype Digest = Sha256(password: string)

  /** `users(id, username UNIQUE, password, role)`. */
  datatype User = User(username: string, password: Digest, role: Role)

  /** The `action` text of an activity-log row, one constructor per message. */
  datatype Action =
    | AddedFlavor(flavor: string)
    | ReactivatedFlavor(flavor: string)
    | DeletedFlavor(flavor: string)
    | AddedStock(quantity: int, flavor: string)
    | SaleTo(customer: string)
    | ReturnFrom(selected: Option<string>)
    | AddedCustomer(customer: string)
    | ReactivatedCustomer(customer: string)
    | UpdatedCustomer(customer: string)
    | DeletedCustomer(customer: string)
    | CreatedUser(username: string)

  /** `activity_logs(id, username, action, log_date)`. */
  datatype LogEntry = LogEntry(username: string, action: Action, logDate: string)

  /** No two flavors share a name, active or not (the UNIQUE at app.py:104). */
  ghost predicate UniqueFlavorNames(flavors: seq<Flavor>)
  {
    forall i, j :: 0 <= i < j < |flavors| ==> flavors[i].name != flavors[j].name
  }

  /** No two users share a username (the UNIQUE at app.py:95). */
  ghost predicate UniqueUsernames(users: seq<User>)
  {
    forall i, j :: 0 <= i < j < |users| ==> users[i].username != users[j].username
  }

  /** `SELECT id, active FROM flavors WHERE name=%s` (app.py:513-517), whatever the active flag. */
  function FindFlavor(flavors: seq<Flavor>, name: string): (r: Option<nat>)
    ensures r.Some? ==> r.value < |flavors| && flavors[r.value].name == name
    ensures r.Some? ==> forall j :: 0 <= j < r.value ==> flavors[j].name != name
    ensures r.None? <==> forall j :: 0 <= j < |flavors| ==> flavors[j].name != name
  {
    if |flavors| == 0 then None
    else if flavors[0].name == name then Some(0)
    else match FindFlavor(flavors[1..], name)
      case None => None
      case Some(k) => Some(k + 1)
  }

  /** With unique names, the row found is the only row with that name. */
  lemma FindFlavorUnique(flavors: seq<Flavor>, name: string, i: nat)
    requires UniqueFlavorNames(flavors)
    requires i < |flavors| && flavors[i].name == name
    ensures FindFlavor(flavors, name) == Some(i)
  {
  }

  /**
   * `SELECT id, active FROM customers WHERE name=%s` with `fetchone()`
   * (app.py:874-878): the first customer with that name, active or not. The
   * query has no ORDER BY; the model takes the lowest id.
   */
  function FindCustomer(customers: seq<Customer>, name: string): (r: Option<nat>)
    ensures r.Some? ==> r.value < |customers| && customers[r.value].name == name
    ensures r.Some? ==> forall j :: 0 <= j < r.value ==> customers[j].name != name
    ensures r.None? <==> forall j :: 0 <= j < |customers| ==> customers[j].name != name
  {
    if |customers| == 0 then None
    else if customers[0].name == name then Some(0)
    else match FindCustomer(customers[1..], name)
      case None => None
      case Some(k) => Some(k + 1)
  }

  /**
   * The sale form's customer (app.py:651, 698-700): the first row of the
   * active customers whose name is the selected one. The query has no ORDER
   * BY; the model takes the lowest id.
   */
  function FirstActiveCustomer(customers: seq<Customer>, name: string): (r: Option<nat>)
    ensures r.Some? ==> r.value < |customers| && customers[r.value].active && customers[r.value].name == name
    ensures r.Some? ==> forall j :: 0 <= j < r.value ==> !(customers[j].active && customers[j].name == name)
    ensures r.None? <==> forall j :: 0 <= j < |customers| ==> !(customers[j].active && customers[j].name == name)
  {
    if |customers| == 0 then None
    else if customers[0].active && customers[0].name == name then Some(0)
    else match FirstActiveCustomer(customers[1..], name)
      case None => None
      case Some(k) => Some(k + 1)
  }

  /**
   * The customer form's row to edit (app.py:841, 862): active customers are
   * listed by id descending and the first with the selected name is taken, so
   * it is the active customer with that name and the highest id.
   */
  function LastActiveCustomer(customers: seq<Customer>, name: string): (r: Option<nat>)
    ensures r.Some? ==> r.value < |customers| && customers[r.value].active && customers[r.value].name == name
    ensures r.Some? ==> forall j :: r.value < j < |customers| ==> !(customers[j].active && customers[j].name == name)
    ensures r.None? <==> forall j :: 0 <= j < |customers| ==> !(customers[j].active && customers[j].name == name)
  {
    if |customers| == 0 then None
    else if customers[|customers| - 1].active && customers[|customers| - 1].name == name then Some(|customers| - 1)
    else LastActiveCustomer(customers[..|customers| - 1], name)
  }

  /** The user row with the given username, if any. */
  function FindUser(users: seq<User>, username: string): (r: Option<nat>)
    ensures r.Some? ==> r.value < |users| && users[r.value].username == username
    ensures r.None? <==> forall j :: 0 <= j < |users| ==> users[j].username != username
  {
    if |users| == 0 then None
    else if users[0].username == username then Some(0)
    else match FindUser(users[1..], username)
      case None => None
      case Some(k) => Some(k + 1)
  }
}

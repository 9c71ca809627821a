/** The purchase ledger of app/lib/db.ts: the `purchases` table as a
    sequence of rows, `savePurchase` as validation followed by an append,
    and the two read queries `getUserPurchases` and `hasUserPurchasedMod`.

    The database is not modelled as behaviour: what the insert call reports
    and whether a read query fails are parameters. */
module Ledger {
  import opened Wrappers
  import opened JsValues

  /** The one status that confers entitlement. */
  const Completed: string := "completed"

  /** A row of the `purchases` table. The identifier the database assigns
      is not part of the model. `transactionId` is whatever value the caller
      passed: the checkout route forwards the request body's field as is. */
  datatype Purchase = Purchase(
    userId: string,
    modId: string,
    transactionId: JsValue,
    purchaseDate: string,
    amount: int,
    status: string)

  /** A row as `getUserPurchases` selects it: every column but `user_id`. */
  datatype PurchaseSummary = PurchaseSummary(
    modId: string,
    transactionId: JsValue,
    purchaseDate: string,
    amount: int,
    status: string)

  /** The two fields of a cart item that `savePurchase` reads. */
  datatype Item = Item(id: string, price: int)

  /** What the `insert(...).select()` call reports. A missing error field
      is the empty string, since the code only tests them for truthiness. */
  datatype InsertOutcome =
    | InsertFailed(code: string, message: string, details: string)
    | InsertedWithoutData
    | Inserted

  datatype SaveResult = Saved(rows: seq<Purchase>) | SaveError(message: string)

  /** The ledger after a call, and what the call returned or threw. */
  datatype SaveOutcome = SaveOutcome(ledger: seq<Purchase>, result: SaveResult)

  /** What a read query reports: an error, a `null` result, or its rows. */
  datatype QueryOutcome = QueryFailed | QueryNull | QueryRows

  const UserIdRequired: string := "User ID is required"
  const ItemsInvalid: string := "Items array is empty or invalid"
  const TransactionIdRequired: string := "Transaction ID is required"
  const NoDataReturned: string := "Purchase was saved but no data was returned"

  /** The message thrown for a failed insert:
      `Database error (<code>): <message>`, with `UNKNOWN` for a missing
      code and the details, then a fixed text, for a missing message. */
  function DatabaseErrorMessage(code: string, message: string, details: string): (m: string)
    ensures var c := if code != "" then code else "UNKNOWN";
            && |m| >= 19 + |c|
            && m[..16] == "Database error ("
            && m[16..16 + |c|] == c
            && m[16 + |c|..19 + |c|] == "): "
            && (message != "" ==> m[19 + |c|..] == message)
            && (message == "" && details != "" ==> m[19 + |c|..] == details)
            && (message == "" && details == "" ==> m[19 + |c|..] == "Database error while saving purchase")
  {
    var text := if message != "" then message
                else if details != "" then details
                else "Database error while saving purchase";
    var c := if code != "" then code else "UNKNOWN";
    "Database error (" + c + "): " + text
  }

  /** One `completed` row per item, in item order. */
  function BuildRows(userId: string, items: seq<Item>, transactionId: JsValue, now: string): (rows: seq<Purchase>)
    ensures |rows| == |items|
    ensures forall i :: 0 <= i < |rows| ==>
              && rows[i].userId == userId
              && rows[i].transactionId == transactionId
              && rows[i].status == Completed
              && rows[i].purchaseDate == now
              && rows[i].modId == items[i].id
              && rows[i].amount == items[i].price
  {
    if |items| == 0 then []
    else [Purchase(userId, items[0].id, transactionId, now, items[0].price, Completed)]
         + BuildRows(userId, items[1..], transactionId, now)
  }

  /** The items a list of rows records, in order. */
  function ItemsOf(rows: seq<Purchase>): (items: seq<Item>)
    ensures |items| == |rows|
  {
    if |rows| == 0 then [] else [Item(rows[0].modId, rows[0].amount)] + ItemsOf(rows[1..])
  }

  /** The rows built for a cart record exactly that cart. */
  lemma {:induction false} BuildRowsRecordsItems(userId: string, items: seq<Item>, transactionId: JsValue, now: string)
    ensures ItemsOf(BuildRows(userId, items, transactionId, now)) == items
    decreases |items|
  {
    if |items| > 0 {
      BuildRowsRecordsItems(userId, items[1..], transactionId, now);
      assert [items[0]] + items[1..] == items;
    }
  }

  /** `savePurchase(userId, items, transactionId)`: the three input checks
      in order, then one insert of all rows. `items == None` is a missing
      (`null` or `undefined`) array; `now` is the insert-time timestamp. */
  function SavePurchase(
    ledger: seq<Purchase>, userId: string, items: Option<seq<Item>>,
    transactionId: JsValue, now: string, insert: InsertOutcome): (out: SaveOutcome)
    ensures userId == "" ==> out == SaveOutcome(ledger, SaveError(UserIdRequired))
    ensures userId != "" && (items.None? || |items.value| == 0) ==>
              out == SaveOutcome(ledger, SaveError(ItemsInvalid))
    ensures userId != "" && items.Some? && |items.value| > 0 && !Truthy(transactionId) ==>
              out == SaveOutcome(ledger, SaveError(TransactionIdRequired))
    ensures out.result.Saved? <==>
              userId != "" && items.Some? && |items.value| > 0 && Truthy(transactionId) && insert.Inserted?
    ensures out.result.Saved? ==>
              && |out.result.rows| == |items.value|
              && ItemsOf(out.result.rows) == items.value
              && out.result.rows == BuildRows(userId, items.value, transactionId, now)
              && out.ledger == ledger + out.result.rows
    // Past the three checks, what the insert reported decides the result.
    ensures userId != "" && items.Some? && |items.value| > 0 && Truthy(transactionId) ==>
              && (insert.InsertFailed? ==>
                    out == SaveOutcome(ledger, SaveError(DatabaseErrorMessage(insert.code, insert.message, insert.details))))
              && (insert.InsertedWithoutData? ==>
                    out == SaveOutcome(ledger + BuildRows(userId, items.value, transactionId, now), SaveError(NoDataReturned)))
    ensures insert.InsertFailed? ==> out.ledger == ledger
    ensures out.ledger == ledger || |out.ledger| == |ledger| + |items.value|
  {
    if userId == "" then SaveOutcome(ledger, SaveError(UserIdRequired))
    else if items.None? || |items.value| == 0 then SaveOutcome(ledger, SaveError(ItemsInvalid))
    else if !Truthy(transactionId) then SaveOutcome(ledger, SaveError(TransactionIdRequired))
    else
      var rows := BuildRows(userId, items.value, transactionId, now);
      BuildRowsRecordsItems(userId, items.value, transactionId, now);
      match insert
      case InsertFailed(code, message, details) =>
        SaveOutcome(ledger, SaveError(DatabaseErrorMessage(code, message, details)))
      case InsertedWithoutData =>
        SaveOutcome(ledger + rows, SaveError(NoDataReturned))
      case Inserted =>
        SaveOutcome(ledger + rows, Saved(rows))
  }

  /** A row grants user `u` the mod `m`. */
  predicate Grants(p: Purchase, u: string, m: string)
  {
    p.userId == u && p.modId == m && p.status == Completed
  }

  /** The rows of user `u` with status `completed`, in ledger order. */
  function CompletedRowsOf(ledger: seq<Purchase>, u: string): (rows: seq<Purchase>)
    ensures |rows| <= |ledger|
    ensures forall p :: p in rows <==> p in ledger && p.userId == u && p.status == Completed
  {
    if |ledger| == 0 then []
    else
      var rest := CompletedRowsOf(ledger[1..], u);
      assert forall p :: p in ledger <==> p == ledger[0] || p in ledger[1..];
      if ledger[0].userId == u && ledger[0].status == Completed then [ledger[0]] + rest else rest
  }

  function Summary(p: Purchase): PurchaseSummary
  {
    PurchaseSummary(p.modId, p.transactionId, p.purchaseDate, p.amount, p.status)
  }

  function Summaries(rows: seq<Purchase>): (s: seq<PurchaseSummary>)
    ensures |s| == |rows|
    ensures forall i :: 0 <= i < |rows| ==> s[i] == Summary(rows[i])
  {
    if |rows| == 0 then [] else [Summary(rows[0])] + Summaries(rows[1..])
  }

  /** `getUserPurchases(u)`: the user's completed rows without the user
      column; `[]` when the query fails or returns `null`. */
  function GetUserPurchases(ledger: seq<Purchase>, u: string, query: QueryOutcome): (r: seq<PurchaseSummary>)
    ensures !query.QueryRows? ==> r == []
    ensures query.QueryRows? ==> r == Summaries(CompletedRowsOf(ledger, u))
    ensures query.QueryRows? ==>
              forall s :: s in r <==>
                exists i :: 0 <= i < |ledger| && ledger[i].userId == u
                            && ledger[i].status == Completed && Summary(ledger[i]) == s
    ensures forall i :: 0 <= i < |r| ==> r[i].status == Completed
  {
    if query.QueryRows? then
      var rows := CompletedRowsOf(ledger, u);
      var r := Summaries(rows);
      assert forall s :: s in r <==> exists j :: 0 <= j < |rows| && Summary(rows[j]) == s;
      assert forall j :: 0 <= j < |rows| ==> rows[j] in ledger;
      r
    else []
  }

  /** The first row, if any, that grants `u` the mod `m`
      (the query's `.limit(1)`). */
  function FirstGrant(ledger: seq<Purchase>, u: string, m: string): (r: Option<nat>)
    ensures r.Some? ==> r.value < |ledger| && Grants(ledger[r.value], u, m)
    ensures r.Some? ==> forall j :: 0 <= j < r.value ==> !Grants(ledger[j], u, m)
    ensures r.None? ==> forall j :: 0 <= j < |ledger| ==> !Grants(ledger[j], u, m)
  {
    if |ledger| == 0 then None
    else if Grants(ledger[0], u, m) then Some(0)
    else
      match FirstGrant(ledger[1..], u, m)
      case None => None
      case Some(k) => Some(k + 1)
  }

  /** `hasUserPurchasedMod(u, m)`: a completed row of `u` for `m` exists;
      `false` whenever the lookup fails. */
  function HasUserPurchasedMod(ledger: seq<Purchase>, u: string, m: string, lookupOk: bool): (r: bool)
    ensures r <==> lookupOk && exists i :: 0 <= i < |ledger| && Grants(ledger[i], u, m)
  {
    lookupOk && FirstGrant(ledger, u, m).Some?
  }

  // ---------------------------------------------------------------------
  // Properties relating several calls

  /** After a save that inserted its rows, the user is entitled to every
      item of the cart, whatever the call then returned. */
  lemma SaveGrantsEveryItem(
    ledger: seq<Purchase>, userId: string, items: seq<Item>,
    transactionId: JsValue, now: string, insert: InsertOutcome, k: int)
    requires userId != "" && |items| > 0 && Truthy(transactionId) && !insert.InsertFailed?
    requires 0 <= k < |items|
    ensures HasUserPurchasedMod(SavePurchase(ledger, userId, Some(items), transactionId, now, insert).ledger,
                                userId, items[k].id, true)
  {
    var rows := BuildRows(userId, items, transactionId, now);
    var after := SavePurchase(ledger, userId, Some(items), transactionId, now, insert).ledger;
    assert after == ledger + rows;
    assert after[|ledger| + k] == rows[k];
  }

  /** A save never takes an entitlement away. */
  lemma SaveKeepsEntitlements(
    ledger: seq<Purchase>, userId: string, items: Option<seq<Item>>,
    transactionId: JsValue, now: string, insert: InsertOutcome, u: string, m: string)
    requires HasUserPurchasedMod(ledger, u, m, true)
    ensures HasUserPurchasedMod(SavePurchase(ledger, userId, items, transactionId, now, insert).ledger, u, m, true)
  {
    var after := SavePurchase(ledger, userId, items, transactionId, now, insert).ledger;
    var i :| 0 <= i < |ledger| && Grants(ledger[i], u, m);
    assert after[i] == ledger[i];
  }

  /** A row whose status is not `completed` (refunded, failed, anything
      else) never changes whether anyone is entitled to anything. */
  lemma OnlyCompletedRowsGrant(ledger: seq<Purchase>, p: Purchase, u: string, m: string)
    requires p.status != Completed
    ensures HasUserPurchasedMod(ledger + [p], u, m, true) == HasUserPurchasedMod(ledger, u, m, true)
  {
    var l := ledger + [p];
    assert forall i :: 0 <= i < |ledger| ==> l[i] == ledger[i];
  }

  /** Saving is not idempotent: the same successful call made twice leaves
      two copies of every row, including the transaction id. */
  lemma SavingTwiceDuplicatesRows(
    ledger: seq<Purchase>, userId: string, items: seq<Item>,
    transactionId: JsValue, now: string)
    requires userId != "" && |items| > 0 && Truthy(transactionId)
    ensures var once := SavePurchase(ledger, userId, Some(items), transactionId, now, Inserted);
            var twice := SavePurchase(once.ledger, userId, Some(items), transactionId, now, Inserted);
            && twice.ledger == ledger + once.result.rows + once.result.rows
            && twice.result == once.result
            && twice.ledger != once.ledger
  {
    var once := SavePurchase(ledger, userId, Some(items), transactionId, now, Inserted);
    var twice := SavePurchase(once.ledger, userId, Some(items), transactionId, now, Inserted);
    assert |twice.ledger| == |once.ledger| + |items|;
  }

  /** The completed rows of a concatenation are the completed rows of each
      part, in order. */
  lemma {:induction false} CompletedRowsOfAppend(a: seq<Purchase>, b: seq<Purchase>, u: string)
    ensures CompletedRowsOf(a + b, u) == CompletedRowsOf(a, u) + CompletedRowsOf(b, u)
    decreases |a|
  {
    if |a| == 0 {
      assert a + b == b;
    } else {
      var ab := a + b;
      assert ab[0] == a[0];
      assert ab[1..] == a[1..] + b;
      CompletedRowsOfAppend(a[1..], b, u);
    }
  }

  /** Every row built for the saving user is one of that user's completed rows. */
  lemma {:induction false} CompletedRowsOfBuilt(userId: string, items: seq<Item>, transactionId: JsValue, now: string)
    ensures CompletedRowsOf(BuildRows(userId, items, transactionId, now), userId) == BuildRows(userId, items, transactionId, now)
    decreases |items|
  {
    if |items| > 0 {
      CompletedRowsOfBuilt(userId, items[1..], transactionId, now);
    }
  }

  /** A successful save adds exactly the cart's items to what
      `getUserPurchases` lists for the saving user, after the earlier ones. */
  lemma SaveExtendsUserPurchases(
    ledger: seq<Purchase>, userId: string, items: seq<Item>,
    transactionId: JsValue, now: string)
    requires userId != "" && |items| > 0 && Truthy(transactionId)
    ensures var out := SavePurchase(ledger, userId, Some(items), transactionId, now, Inserted);
            |GetUserPurchases(out.ledger, userId, QueryRows)| == |GetUserPurchases(ledger, userId, QueryRows)| + |items|
  {
    var rows := BuildRows(userId, items, transactionId, now);
    CompletedRowsOfAppend(ledger, rows, userId);
    CompletedRowsOfBuilt(userId, items, transactionId, now);
  }

  /** `hasUserPurchasedMod` agrees with `getUserPurchases`: the user is
      entitled to `m` exactly when one of the listed purchases is for `m`. */
  lemma EntitlementMatchesListing(ledger: seq<Purchase>, u: string, m: string)
    ensures HasUserPurchasedMod(ledger, u, m, true) <==>
              exists k :: 0 <= k < |GetUserPurchases(ledger, u, QueryRows)| &&
                          GetUserPurchases(ledger, u, QueryRows)[k].modId == m
  {
    var listed := GetUserPurchases(ledger, u, QueryRows);
    if HasUserPurchasedMod(ledger, u, m, true) {
      var i :| 0 <= i < |ledger| && Grants(ledger[i], u, m);
      assert Summary(ledger[i]) in listed;
    }
    if exists k :: 0 <= k < |listed| && listed[k].modId == m {
      var k :| 0 <= k < |listed| && listed[k].modId == m;
      assert listed[k] in listed;
    }
  }
}

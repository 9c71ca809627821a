/** The checkout route of app/api/checkout/route.ts: `POST` as a pure
    function from the request (Authorization header, body) and the outcomes
    of the external calls (token validation, body parsing, the insert) to
    the HTTP response and the ledger afterwards.

    Token validation is a function from the token to its outcome, so that
    the model can state which token was validated and where the user id
    that reaches the ledger comes from. */
module Checkout {
  import opened Wrappers
  import opened JsValues
  import Strings
  import Ledger

  /** What `supabase.auth.getUser(token)` reports: an error with its
      message, no user, a user, or an exception. */
  datatype TokenOutcome = TokenError(message: string) | NoUser | User(id: string) | TokenThrew

  /** What `request.json()` produced. */
  datatype BodyOutcome = Unparseable | Parsed(value: JsValue)

  datatype Payload =
    | ErrorPayload(error: string)
    | SuccessPayload(purchases: seq<Ledger.Purchase>)

  datatype Response = Response(status: int, payload: Payload)

  datatype CheckoutOutcome = CheckoutOutcome(response: Response, ledger: seq<Ledger.Purchase>)

  const BearerPrefix: string := "Bearer "

  const MissingHeader: string := "Authentication required - Invalid or missing Authorization header"
  const InvalidUserToken: string := "Authentication failed: Invalid user token"
  const CouldNotValidate: string := "Authentication failed: Could not validate token"
  const UnparseableBody: string := "Invalid request: could not parse JSON body"
  const InvalidItems: string := "Invalid items data"
  const MissingTransactionId: string := "Transaction ID is required"
  const MalformedItems: string := "Items must have valid id and price properties"
  /** The message of the `TypeError` that destructuring a `null` body throws. */
  const NullBodyError: string := "Cannot destructure property 'items' of 'body' as it is null."

  /** A usable Authorization header: present, non-empty, starting with `Bearer `. */
  predicate HasBearer(header: Option<string>)
    ensures HasBearer(header) <==> header.Some? && |header.value| >= 7 && header.value[..7] == "Bearer "
  {
    header.Some? && header.value != "" && Strings.StartsWith(header.value, BearerPrefix)
  }

  /** The token: the header without its first seven characters. */
  function Token(header: string): (t: string)
    requires Strings.StartsWith(header, BearerPrefix)
    ensures header == BearerPrefix + t
  {
    header[|BearerPrefix|..]
  }

  /** An item with a string `id` and a number `price`. Only objects have
      the two properties; `null`, arrays and primitives fail the test. */
  predicate ValidItem(v: JsValue)
  {
    v.Obj? && "id" in v.fields && "price" in v.fields && v.fields["id"].Str? && v.fields["price"].Num?
  }

  /** The `id` and `price` that `savePurchase` reads from a valid item. */
  function ToItem(v: JsValue): Ledger.Item
    requires ValidItem(v)
  {
    Ledger.Item(v.fields["id"].s, v.fields["price"].n)
  }

  /** The items `savePurchase` reads from a validated array, in order. */
  function ToItems(vs: seq<JsValue>): (items: seq<Ledger.Item>)
    requires forall i :: 0 <= i < |vs| ==> ValidItem(vs[i])
    ensures |items| == |vs|
    ensures forall i :: 0 <= i < |vs| ==> ValidItem(vs[i]) && items[i] == ToItem(vs[i])
  {
    if |vs| == 0 then []
    else [ToItem(vs[0])] + ToItems(vs[1..])
  }

  /** A parsed body the route accepts: an object (or other non-null value)
      whose `items` is a non-empty array of valid items and whose
      `transactionId` is truthy. Stated independently of `Post`. */
  predicate WellFormedBody(v: JsValue)
  {
    && !v.Undefined? && !v.Null?
    && v.Obj? && "items" in v.fields && "transactionId" in v.fields
    && v.fields["items"].Arr? && |v.fields["items"].elements| > 0
    && (forall i :: 0 <= i < |v.fields["items"].elements| ==> ValidItem(v.fields["items"].elements[i]))
    && Truthy(v.fields["transactionId"])
  }

  function Reply(status: int, error: string, ledger: seq<Ledger.Purchase>): CheckoutOutcome
  {
    CheckoutOutcome(Response(status, ErrorPayload(error)), ledger)
  }

  /** The header carries a bearer token that validates to a user. */
  predicate SignedIn(header: Option<string>, validate: string -> TokenOutcome)
  {
    HasBearer(header) && validate(Token(header.value)).User?
  }

  /** The id of the user the header's token validates to. */
  function UserId(header: Option<string>, validate: string -> TokenOutcome): string
    requires SignedIn(header, validate)
  {
    validate(Token(header.value)).id
  }

  /** The body's `items` is a non-empty array: the first body check. */
  predicate ItemsPresent(v: JsValue)
  {
    && !v.Undefined? && !v.Null?
    && var items := Property(v, "items");
       Truthy(items) && items.Arr? && |items.elements| > 0
  }

  /** What the handler does once the token named a user: the body checks
      in order, each with its 400, then `savePurchase`, whose every failure
      is a 500. */
  function HandleBody(
    userId: string, body: BodyOutcome, ledger: seq<Ledger.Purchase>, now: string,
    insert: Ledger.InsertOutcome): (out: CheckoutOutcome)
    ensures body.Unparseable? ==> out == Reply(400, UnparseableBody, ledger)
    ensures body.Parsed? && (body.value.Undefined? || body.value.Null?) ==>
              out == Reply(500, "Failed to process checkout: " + NullBodyError, ledger)
    ensures body.Parsed? && !body.value.Undefined? && !body.value.Null? ==>
              && (!ItemsPresent(body.value) ==> out == Reply(400, InvalidItems, ledger))
              && (ItemsPresent(body.value) && !Truthy(Property(body.value, "transactionId")) ==>
                    out == Reply(400, MissingTransactionId, ledger))
    ensures body.Parsed? && ItemsPresent(body.value) && Truthy(Property(body.value, "transactionId"))
            && (exists i :: 0 <= i < |Property(body.value, "items").elements|
                            && !ValidItem(Property(body.value, "items").elements[i])) ==>
              out == Reply(400, MalformedItems, ledger)
    ensures body.Parsed? && WellFormedBody(body.value) ==>
              && (!insert.Inserted? || userId == "" ==> out.response.status == 500)
              && (insert.InsertFailed? && userId != "" ==>
                    out == Reply(500, Ledger.DatabaseErrorMessage(insert.code, insert.message, insert.details), ledger))
    ensures out.response.status in {200, 400, 500}
    ensures out.response.status == 400 ==> out.ledger == ledger
    ensures out.ledger == ledger || out.response.status in {200, 500}
    // Success: the user owns every saved row, which records the body's items.
    ensures out.response.status == 200 ==>
              && body.Parsed? && WellFormedBody(body.value)
              && out.response.payload.SuccessPayload?
              && out.ledger == ledger + out.response.payload.purchases
              && Ledger.ItemsOf(out.response.payload.purchases) == ToItems(body.value.fields["items"].elements)
              && (forall i :: 0 <= i < |out.response.payload.purchases| ==>
                    out.response.payload.purchases[i].transactionId == body.value.fields["transactionId"])
              && (forall i :: 0 <= i < |out.response.payload.purchases| ==>
                    out.response.payload.purchases[i].userId == userId)
  {
    match body
    case Unparseable => Reply(400, UnparseableBody, ledger)
    case Parsed(v) =>
      if v.Undefined? || v.Null? then
        Reply(500, "Failed to process checkout: " + NullBodyError, ledger)
      else
        var items := Property(v, "items");
        var transactionId := Property(v, "transactionId");
        if !Truthy(items) || !items.Arr? || |items.elements| == 0 then
          Reply(400, InvalidItems, ledger)
        else if !Truthy(transactionId) then
          Reply(400, MissingTransactionId, ledger)
        else if !(forall i :: 0 <= i < |items.elements| ==> ValidItem(items.elements[i])) then
          Reply(400, MalformedItems, ledger)
        else
          var saved := Ledger.SavePurchase(
            ledger, userId, Some(ToItems(items.elements)), transactionId, now, insert);
          match saved.result
          case SaveError(message) => Reply(500, message, saved.ledger)
          case Saved(rows) => CheckoutOutcome(Response(200, SuccessPayload(rows)), saved.ledger)
  }

  /** `POST /api/checkout`: the Authorization header and its token first,
      then the body and the save for the validated user's id. */
  function Post(
    header: Option<string>, validate: string -> TokenOutcome, body: BodyOutcome,
    ledger: seq<Ledger.Purchase>, now: string, insert: Ledger.InsertOutcome): (out: CheckoutOutcome)
    // Authorization comes first: nothing after it is looked at.
    ensures !HasBearer(header) ==> out == Reply(401, MissingHeader, ledger)
    ensures HasBearer(header) ==>
              match validate(Token(header.value))
              case TokenError(message) => out == Reply(401, "Authentication failed: " + message, ledger)
              case NoUser => out == Reply(401, InvalidUserToken, ledger)
              case TokenThrew => out == Reply(401, CouldNotValidate, ledger)
              case User(userId) => out == HandleBody(userId, body, ledger, now, insert)
    // 401 exactly when no user was validated; only a save changes the ledger.
    ensures out.response.status == 401 <==> !SignedIn(header, validate)
    ensures out.response.status in {200, 400, 401, 500}
    ensures out.response.status in {400, 401} ==> out.ledger == ledger
    ensures out.ledger == ledger || out.response.status in {200, 500}
  {
    if !HasBearer(header) then Reply(401, MissingHeader, ledger)
    else
      var token := Token(header.value);
      match validate(token)
      case TokenError(message) => Reply(401, "Authentication failed: " + message, ledger)
      case NoUser => Reply(401, InvalidUserToken, ledger)
      case TokenThrew => Reply(401, CouldNotValidate, ledger)
      case User(userId) => HandleBody(userId, body, ledger, now, insert)
  }

  // ---------------------------------------------------------------------
  // Properties relating several calls

  /** The route answers 200 exactly when the header carries a bearer token
      of a known user with a non-empty id, the body is well formed, and the
      insert returned its rows. */
  lemma SuccessExactly(
    header: Option<string>, validate: string -> TokenOutcome, body: BodyOutcome,
    ledger: seq<Ledger.Purchase>, now: string, insert: Ledger.InsertOutcome)
    ensures Post(header, validate, body, ledger, now, insert).response.status == 200 <==>
              && HasBearer(header)
              && validate(Token(header.value)).User?
              && validate(Token(header.value)).id != ""
              && body.Parsed? && WellFormedBody(body.value)
              && insert.Inserted?
  {
  }

  /** Without a bearer header the body is never read: any two bodies give
      the same response and leave the ledger alone. */
  lemma BodyUnreadWithoutBearer(
    header: Option<string>, validate: string -> TokenOutcome, body1: BodyOutcome, body2: BodyOutcome,
    ledger: seq<Ledger.Purchase>, now: string, insert: Ledger.InsertOutcome)
    requires !HasBearer(header)
    ensures Post(header, validate, body1, ledger, now, insert) == Post(header, validate, body2, ledger, now, insert)
    ensures Post(header, validate, body1, ledger, now, insert).ledger == ledger
  {
  }

  /** The token validated is the header's text after `Bearer `: two headers
      whose tokens a validator treats alike get the same response. */
  lemma OnlyTheTokenMatters(
    token: string, validate1: string -> TokenOutcome, validate2: string -> TokenOutcome, body: BodyOutcome,
    ledger: seq<Ledger.Purchase>, now: string, insert: Ledger.InsertOutcome)
    requires validate1(token) == validate2(token)
    ensures Post(Some(BearerPrefix + token), validate1, body, ledger, now, insert) ==
            Post(Some(BearerPrefix + token), validate2, body, ledger, now, insert)
  {
    var h := BearerPrefix + token;
    assert Strings.StartsWith(h, BearerPrefix);
    assert Token(h) == token;
  }

  /** A `userId` field in the body changes nothing: the id written to the
      ledger can only come from the validated token. */
  lemma BodyUserIdIgnored(
    header: Option<string>, validate: string -> TokenOutcome, fields: map<string, JsValue>, claimed: JsValue,
    ledger: seq<Ledger.Purchase>, now: string, insert: Ledger.InsertOutcome)
    ensures Post(header, validate, Parsed(Obj(fields["userId" := claimed])), ledger, now, insert) ==
            Post(header, validate, Parsed(Obj(fields)), ledger, now, insert)
  {
    var v1 := Obj(fields["userId" := claimed]);
    var v2 := Obj(fields);
    assert Property(v1, "items") == Property(v2, "items");
    assert Property(v1, "transactionId") == Property(v2, "transactionId");
  }

  /** One malformed item anywhere in the cart rejects the whole request
      with 400 and nothing is saved. */
  lemma OneBadItemRejectsAll(
    header: Option<string>, validate: string -> TokenOutcome, v: JsValue,
    ledger: seq<Ledger.Purchase>, now: string, insert: Ledger.InsertOutcome, k: int)
    requires HasBearer(header) && validate(Token(header.value)).User?
    requires v.Obj? && "items" in v.fields && v.fields["items"].Arr?
    requires 0 <= k < |v.fields["items"].elements| && !ValidItem(v.fields["items"].elements[k])
    ensures Post(header, validate, Parsed(v), ledger, now, insert).response.status == 400
    ensures Post(header, validate, Parsed(v), ledger, now, insert).ledger == ledger
  {
  }
}

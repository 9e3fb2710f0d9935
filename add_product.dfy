/**
 * The add-product form: reading the five inputs, the four validation
 * checks in their fixed order, and the request body built when all pass.
 * Each check that fails ends the submission with its own notice (and a
 * focus on its input) before any request exists; the request itself is
 * network I/O and is not part of this model.
 */
module AddProduct {
  import opened Wrappers
  import opened JsText
  import opened JsNumber

  /** The raw `value` strings of the form's inputs. */
  datatype Form = Form(name: string, description: string, price: string, category: string, quantity: string)

  /** The five-field body of the `POST /api/products` request. */
  datatype NewProduct = NewProduct(name: string, description: string, price: Number, category: string, quantity: int)

  /** Why a submission was turned down, one case per check. */
  datatype Rejection = EmptyName | InvalidPrice | NoCategory | NegativeQuantity

  /**
   * `parseInt(value) || 0`: NaN, like zero, becomes 0. Input with no digit
   * after its leading spaces and sign reads as 0, and only input with a
   * minus sign reads as a negative quantity.
   */
  function QuantityOf(raw: string): (q: int)
    ensures ParseInt(raw) == None ==> q == 0
    ensures ParseInt(raw).Some? ==> q == ParseInt(raw).value
    ensures var u := SplitSign(TrimStart(raw)).1; (u == [] || !IsDecDigit(u[0])) ==> q == 0
    ensures q < 0 ==> SplitSign(TrimStart(raw)).0
  {
    match ParseInt(raw)
    case None => 0
    case Some(n) => n
  }

  /**
   * A quantity typed as the decimal notation of an integer, followed by
   * anything that continues neither the number nor a `0x` prefix, is read
   * as that integer.
   */
  lemma {:induction false} QuantityReadsIntString(n: int, rest: string)
    requires rest == [] || (!IsDecDigit(rest[0]) && (n != 0 || (rest[0] != 'x' && rest[0] != 'X')))
    ensures QuantityOf(IntString(n) + rest) == n
  {
    ParseIntReadsIntString(n, rest);
  }

  /** `isNaN(price) || price <= 0`. */
  predicate PriceRejected(p: Number) {
    p.NaN? || p.NegInfinity? || (p.Finite? && p.value <= 0.0)
  }

  /** The submission: the first failing check, or the product to send. */
  function Validate(f: Form): (r: Result<NewProduct, Rejection>)
    ensures r == Err(EmptyName) <==> Trim(f.name) == []
    ensures r.Ok? ==>
              && r.value.name != [] && Unpadded(r.value.name) && Unpadded(r.value.description)
              && !PriceRejected(r.value.price) && r.value.category != [] && r.value.quantity >= 0
  {
    var name := Trim(f.name);
    var description := Trim(f.description);
    var price := ParseFloat(f.price);
    var quantity := QuantityOf(f.quantity);
    if name == [] then Err(EmptyName)
    else if PriceRejected(price) then Err(InvalidPrice)
    else if f.category == [] then Err(NoCategory)
    else if quantity < 0 then Err(NegativeQuantity)
    else Ok(NewProduct(name, description, price, f.category, quantity))
  }

  /**
   * The checks run in the order name, price, category, quantity: each
   * rejection is reported exactly when its own check fails and every
   * earlier one passed, and a product is built exactly when all four pass.
   * A blank name is one made only of space characters.
   */
  lemma {:induction false} ValidateFirstFailure(f: Form)
    ensures Validate(f) == Err(EmptyName) <==> AllSpace(f.name)
    ensures Validate(f) == Err(InvalidPrice) <==>
              !AllSpace(f.name) && PriceRejected(ParseFloat(f.price))
    ensures Validate(f) == Err(NoCategory) <==>
              !AllSpace(f.name) && !PriceRejected(ParseFloat(f.price)) && f.category == []
    ensures Validate(f) == Err(NegativeQuantity) <==>
              !AllSpace(f.name) && !PriceRejected(ParseFloat(f.price)) && f.category != []
              && ParseInt(f.quantity).Some? && ParseInt(f.quantity).value < 0
    ensures Validate(f).Ok? <==>
              !AllSpace(f.name) && !PriceRejected(ParseFloat(f.price)) && f.category != []
              && (ParseInt(f.quantity) == None || ParseInt(f.quantity).value >= 0)
  {
    TrimEmptyIffAllSpace(f.name);
  }

  /**
   * An accepted submission carries exactly the five fields: name and
   * description trimmed (the name non-empty), a positive price (finite or
   * `Infinity`), the chosen category and a non-negative quantity.
   */
  lemma {:induction false} AcceptedProduct(f: Form)
    requires Validate(f).Ok?
    ensures var p := Validate(f).value;
      && p.name == Trim(f.name) && p.name != [] && Unpadded(p.name)
      && p.description == Trim(f.description) && Unpadded(p.description)
      && p.price == ParseFloat(f.price)
      && (p.price.PosInfinity? || (p.price.Finite? && p.price.value > 0.0))
      && p.category == f.category && p.category != []
      && p.quantity >= 0 && p.quantity == QuantityOf(f.quantity)
  {
    var p := NewProduct(Trim(f.name), Trim(f.description), ParseFloat(f.price), f.category, QuantityOf(f.quantity));
    assert Validate(f) == Ok(p);
    assert !PriceRejected(p.price);
    TrimUnpadded(f.name);
    TrimUnpadded(f.description);
  }

  /**
   * A quantity that does not parse is read as 0 and so passes the
   * non-negativity check: when the other inputs are valid the product is
   * built with quantity 0.
   */
  lemma {:induction false} UnparsedQuantityIsZero(f: Form)
    requires !AllSpace(f.name) && !PriceRejected(ParseFloat(f.price)) && f.category != []
    requires ParseInt(f.quantity) == None
    ensures Validate(f).Ok? && Validate(f).value.quantity == 0
  {
    TrimEmptyIffAllSpace(f.name);
  }
}

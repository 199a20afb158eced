/** OptionService (gift.option): the options of a product, their unique names, the rule that a
    product keeps at least one option, and stock subtraction. */
module OptionService {
  import opened Common
  import opened Store
  import NameValidator
  import ProductService

  const FIELD: string := "Option name"
  const MAX_NAME_LENGTH: int := 50

  /** The option-name messages: the generic three-argument validator (no 카카오 check). */
  function NameErrors(name: Nullable<string>): seq<string>
  {
    NameValidator.Errors(name, FIELD, MAX_NAME_LENGTH, false)
  }

  /** `validateName(name)`: passes when the validator finds nothing; otherwise throws
      IllegalArgumentException whose message is every validator message joined with ", ". */
  function NameCheck(name: Nullable<string>): (o: Outcome)
    ensures o.Pass? <==> NameErrors(name) == []
    ensures o.Pass? ==> name.NonNull? && !NameValidator.Blank(name)
    ensures o.Fail? ==> o.error == IllegalArgument(Text(Join(", ", NameErrors(name))))
  {
    var errors := NameErrors(name);
    if errors != [] then Fail(IllegalArgument(Text(Join(", ", errors)))) else Pass
  }

  method ValidateName(name: Nullable<string>) returns (o: Outcome)
    ensures o == NameCheck(name)
  {
    var errors := NameValidator.ValidateDefault(name, FIELD, MAX_NAME_LENGTH);
    if errors != [] {
      return Fail(IllegalArgument(Text(Join(", ", errors))));
    }
    return Pass;
  }

  /** The options of one product (`optionRepository.findByProductId`). */
  function OptionsOf(options: map<int, Option>, productId: int): (r: map<int, Option>)
    ensures forall id :: id in r <==> id in options && options[id].productId == productId
    ensures forall id :: id in r ==> r[id] == options[id]
  {
    Restrict(options, set id | id in options && options[id].productId == productId)
  }

  /** `optionRepository.existsByProductIdAndName(productId, name)`. */
  predicate NameTaken(options: map<int, Option>, productId: int, name: string)
  {
    exists id :: id in options && options[id].productId == productId && options[id].name == name
  }

  /** No product has two options with the same name. */
  predicate NamesUniquePerProduct(options: map<int, Option>)
  {
    forall a, b :: a in options && b in options && a != b && options[a].productId == options[b].productId
      ==> options[a].name != options[b].name
  }

  /** Every product that has an option at all has one in `after` too. */
  ghost predicate KeepsSomeOption(before: map<int, Option>, after: map<int, Option>)
  {
    forall p :: |OptionsOf(before, p)| >= 1 ==> |OptionsOf(after, p)| >= 1
  }

  /** `findByProductId(productId)`: NotFound for an unknown product, otherwise exactly the options
      of that product. */
  function FindByProductId(s: Tables, productId: int): (r: Result<map<int, Option>>)
    ensures r.Err? <==> productId !in s.products
    ensures r.Err? ==> r.error == NotFound(Text(IdText("Product not found. id=", productId)))
    ensures r.Ok? ==> forall id :: id in r.value <==> id in s.options && s.options[id].productId == productId
    ensures r.Ok? ==> forall id :: id in r.value ==> r.value[id] == s.options[id]
  {
    match ProductService.FindById(s, productId)
    case Err(e) => Err(e)
    case Ok(_) => Ok(OptionsOf(s.options, productId))
  }

  /** `findById(id)`: the stored option, or NoSuchElementException naming the id. */
  function FindById(s: Tables, id: int): (r: Result<Option>)
    ensures r.Ok? <==> id in s.options
    ensures r.Ok? ==> r.value == s.options[id]
    ensures r.Err? ==> r.error == NotFound(Text(IdText("Option not found. id=", id)))
  {
    if id in s.options then Ok(s.options[id])
    else Err(NotFound(Text(IdText("Option not found. id=", id))))
  }

  const DUPLICATE_NAME: string := "Option name already exists."
  const LAST_OPTION: string := "Cannot delete the last option of a product."

  /** `create(productId, name, quantity)`: checks the name, then the product, then that the name
      is free within the product; a failure saves nothing; success inserts exactly one option. */
  function CreateSpec(s: Tables, productId: int, name: Nullable<string>, quantity: int): (st: Step<Entry<Option>>)
    requires WellFormed(s)
    ensures WellFormed(st.next)
    ensures st.result.Err? ==> st.next == s
    ensures NameErrors(name) != [] ==> st.result == Err(NameCheck(name).error)
    ensures NameErrors(name) == [] && productId !in s.products ==>
              st.result == Err(NotFound(Text(IdText("Product not found. id=", productId))))
    ensures NameErrors(name) == [] && productId in s.products && NameTaken(s.options, productId, name.value) ==>
              st.result == Err(IllegalArgument(Text(DUPLICATE_NAME)))
    ensures st.result.Ok? <==>
              NameErrors(name) == [] && productId in s.products && !NameTaken(s.options, productId, name.value)
    ensures st.result.Ok? ==>
              && st.result.value.id !in s.options
              && st.result.value.value == Option(productId, name.value, quantity)
              && st.next == s.(options := s.options[st.result.value.id := st.result.value.value],
                               nextId := s.nextId + 1)
    ensures NamesUniquePerProduct(s.options) ==> NamesUniquePerProduct(st.next.options)
  {
    match NameCheck(name)
    case Fail(e) => Step(Err(e), s)
    case Pass =>
      match ProductService.FindById(s, productId)
      case Err(e) => Step(Err(e), s)
      case Ok(_) =>
        if NameTaken(s.options, productId, name.value) then Step(Err(IllegalArgument(Text(DUPLICATE_NAME))), s)
        else
          var option := Option(productId, name.value, quantity);
          var id := s.nextId;
          Step(Ok(Entry(id, option)), s.(options := s.options[id := option], nextId := id + 1))
  }

  method Create(db: Database, productId: int, name: Nullable<string>, quantity: int)
    returns (r: Result<Entry<Option>>)
    requires db.Valid()
    modifies db
    ensures db.Valid()
    ensures Step(r, db.Snapshot()) == CreateSpec(old(db.Snapshot()), productId, name, quantity)
  {
    var check := ValidateName(name);
    if check.Fail? {
      return Err(check.error);
    }
    var product := ProductService.FindById(db.Snapshot(), productId);
    if product.Err? {
      return Err(product.error);
    }
    if NameTaken(db.options, productId, name.value) {
      return Err(IllegalArgument(Text(DUPLICATE_NAME)));
    }
    var option := Option(productId, name.value, quantity);
    var id := db.GenerateId();
    db.options := db.options[id := option];
    r := Ok(Entry(id, option));
  }

  /** `delete(productId, optionId)`: checks the product, then that it has more than one option,
      then that the option exists and belongs to it; a failure deletes nothing; success removes
      exactly that option, so no product ever loses its last option. */
  function DeleteSpec(s: Tables, productId: int, optionId: int): (st: Step<()>)
    ensures WellFormed(s) ==> WellFormed(st.next)
    ensures st.result.Err? ==> st.next == s
    ensures productId !in s.products ==>
              st.result == Err(NotFound(Text(IdText("Product not found. id=", productId))))
    ensures productId in s.products && |OptionsOf(s.options, productId)| <= 1 ==>
              st.result == Err(IllegalArgument(Text(LAST_OPTION)))
    ensures productId in s.products && |OptionsOf(s.options, productId)| > 1
            && (optionId !in s.options || s.options[optionId].productId != productId) ==>
              st.result == Err(NotFound(Text(IdText("Option not found. id=", optionId))))
    ensures st.result.Ok? <==>
              productId in s.products && |OptionsOf(s.options, productId)| > 1
              && optionId in s.options && s.options[optionId].productId == productId
    ensures st.result.Ok? ==> st.next == s.(options := s.options - {optionId})
    ensures KeepsSomeOption(s.options, st.next.options)
    ensures NamesUniquePerProduct(s.options) ==> NamesUniquePerProduct(st.next.options)
  {
    match ProductService.FindById(s, productId)
    case Err(e) => Step(Err(e), s)
    case Ok(_) =>
      if |OptionsOf(s.options, productId)| <= 1 then Step(Err(IllegalArgument(Text(LAST_OPTION))), s)
      else
        match FindById(s, optionId)
        case Err(e) => Step(Err(e), s)
        case Ok(option) =>
          if option.productId != productId then Step(Err(NotFound(Text(IdText("Option not found. id=", optionId)))), s)
          else
            RemovalKeepsSomeOption(s.options, productId, optionId);
            Step(Ok(()), s.(options := s.options - {optionId}))
  }

  /** Removing one option of a product that has at least two leaves every product with an
      option still having one. */
  lemma RemovalKeepsSomeOption(options: map<int, Option>, productId: int, optionId: int)
    requires optionId in options && options[optionId].productId == productId
    requires |OptionsOf(options, productId)| > 1
    ensures KeepsSomeOption(options, options - {optionId})
  {
    forall p | |OptionsOf(options, p)| >= 1
      ensures |OptionsOf(options - {optionId}, p)| >= 1
    {
      OptionSurvives(options, productId, optionId, p);
    }
  }

  /** One product at a time: an option of `p` other than the removed one is still there. */
  lemma OptionSurvives(options: map<int, Option>, productId: int, optionId: int, p: int)
    requires optionId in options && options[optionId].productId == productId
    requires |OptionsOf(options, productId)| > 1
    requires |OptionsOf(options, p)| >= 1
    ensures |OptionsOf(options - {optionId}, p)| >= 1
  {
    var keys := OptionsOf(options, p).Keys;
    assert |keys| == |OptionsOf(options, p)|;
    var rest := if p == productId then keys - {optionId} else keys;
    assert |rest| >= 1;
    HasElement(rest);
    var k :| k in rest;
    assert k in OptionsOf(options - {optionId}, p);
  }

  method Delete(db: Database, productId: int, optionId: int) returns (r: Result<()>)
    requires db.Valid()
    modifies db
    ensures db.Valid()
    ensures Step(r, db.Snapshot()) == DeleteSpec(old(db.Snapshot()), productId, optionId)
  {
    var product := ProductService.FindById(db.Snapshot(), productId);
    if product.Err? {
      return Err(product.error);
    }
    var options := OptionsOf(db.options, productId);
    if |options| <= 1 {
      return Err(IllegalArgument(Text(LAST_OPTION)));
    }
    var option := FindById(db.Snapshot(), optionId);
    if option.Err? {
      return Err(option.error);
    }
    if option.value.productId != productId {
      return Err(NotFound(Text(IdText("Option not found. id=", optionId))));
    }
    db.options := db.options - {optionId};
    r := Ok(());
  }

  /** `Option.subtractQuantity(quantity)`: refuses to take more than the stock. Option.java is
      not part of this model; its message is not known. */
  function SubtractFromOption(option: Option, quantity: int): (r: Result<Option>)
    requires quantity > 0
    ensures r.Ok? <==> quantity <= option.quantity
    ensures r.Ok? ==> r.value == option.(quantity := option.quantity - quantity)
    ensures r.Err? ==> r.error == IllegalArgument(Unseen("Option.subtractQuantity"))
  {
    if quantity > option.quantity then Err(IllegalArgument(Unseen("Option.subtractQuantity")))
    else Ok(option.(quantity := option.quantity - quantity))
  }

  /** `subtractQuantity(optionId, quantity)`: NotFound for an unknown option, IllegalArgument
      (nothing saved) when the stock is short; otherwise the stock of that option drops by exactly
      `quantity` and stays non-negative. */
  function SubtractQuantitySpec(s: Tables, optionId: int, quantity: int): (st: Step<Option>)
    requires quantity > 0
    ensures WellFormed(s) ==> WellFormed(st.next)
    ensures st.result.Err? ==> st.next == s
    ensures optionId !in s.options ==> st.result == Err(NotFound(Text(IdText("Option not found. id=", optionId))))
    ensures st.result.Ok? <==> optionId in s.options && quantity <= s.options[optionId].quantity
    ensures optionId in s.options && quantity > s.options[optionId].quantity ==>
              st.result == Err(IllegalArgument(Unseen("Option.subtractQuantity")))
    ensures st.result.Ok? ==>
              && st.result.value == s.options[optionId].(quantity := s.options[optionId].quantity - quantity)
              && st.result.value.quantity >= 0
              && st.next == s.(options := s.options[optionId := st.result.value])
    ensures NamesUniquePerProduct(s.options) ==> NamesUniquePerProduct(st.next.options)
  {
    match FindById(s, optionId)
    case Err(e) => Step(Err(e), s)
    case Ok(option) =>
      match SubtractFromOption(option, quantity)
      case Err(e) => Step(Err(e), s)
      case Ok(updated) => Step(Ok(updated), s.(options := s.options[optionId := updated]))
  }

  method SubtractQuantity(db: Database, optionId: int, quantity: int) returns (r: Result<Option>)
    requires db.Valid() && quantity > 0
    modifies db
    ensures db.Valid()
    ensures Step(r, db.Snapshot()) == SubtractQuantitySpec(old(db.Snapshot()), optionId, quantity)
  {
    var found := FindById(db.Snapshot(), optionId);
    if found.Err? {
      return Err(found.error);
    }
    var option := SubtractFromOption(found.value, quantity);
    if option.Err? {
      return Err(option.error);
    }
    db.options := db.options[optionId := option.value];
    r := Ok(option.value);
  }

  /** Subtracting twice is subtracting the sum, as long as the stock allows both. */
  lemma {:induction false} SubtractTwice(s: Tables, optionId: int, q1: int, q2: int)
    requires q1 > 0 && q2 > 0
    requires optionId in s.options && q1 + q2 <= s.options[optionId].quantity
    ensures SubtractQuantitySpec(s, optionId, q1).result.Ok?
    ensures SubtractQuantitySpec(SubtractQuantitySpec(s, optionId, q1).next, optionId, q2).next
         == SubtractQuantitySpec(s, optionId, q1 + q2).next
  {
    var s1 := SubtractQuantitySpec(s, optionId, q1).next;
    assert s1.options[optionId].quantity == s.options[optionId].quantity - q1;
    assert s1.options[optionId := s1.options[optionId].(quantity := s1.options[optionId].quantity - q2)]
        == s.options[optionId := s.options[optionId].(quantity := s.options[optionId].quantity - (q1 + q2))];
  }
}

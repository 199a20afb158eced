/** ProductService (gift.product): product CRUD with the name rules checked first. */
module ProductService {
  import opened Common
  import opened Store
  import NameValidator
  import CategoryService

  const FIELD: string := "Product name"
  const MAX_NAME_LENGTH: int := 15

  /** The product-name messages: the generic validator with the 카카오 check switched on. */
  function NameErrors(name: Nullable<string>): seq<string>
  {
    NameValidator.Errors(name, FIELD, MAX_NAME_LENGTH, true)
  }

  /** `validateName(name)`: passes when the validator finds nothing; otherwise throws
      IllegalArgumentException whose message is every validator message joined with ", ". */
  function NameCheck(name: Nullable<string>): (o: Outcome)
    ensures o.Pass? <==> NameErrors(name) == []
    ensures o.Pass? ==> name.NonNull? && !NameValidator.Contains(name.value, NameValidator.KAKAO)
    ensures o.Fail? ==> o.error == IllegalArgument(Text(Join(", ", NameErrors(name))))
  {
    var errors := NameErrors(name);
    if errors != [] then Fail(IllegalArgument(Text(Join(", ", errors)))) else Pass
  }

  method ValidateName(name: Nullable<string>) returns (o: Outcome)
    ensures o == NameCheck(name)
  {
    var errors := NameValidator.Validate(name, FIELD, MAX_NAME_LENGTH, true);
    if errors != [] {
      return Fail(IllegalArgument(Text(Join(", ", errors))));
    }
    return Pass;
  }

  /** `findAll()` (and `findAll(pageable)` without the paging): every stored product. */
  function FindAll(s: Tables): (r: set<Entry<Product>>)
    ensures forall e :: e in r <==> e.id in s.products && e.value == s.products[e.id]
    ensures forall id :: id in s.products ==> Entry(id, s.products[id]) in r
  {
    set id | id in s.products :: Entry(id, s.products[id])
  }

  /** `findById(id)`: the stored product, or NoSuchElementException naming the id. */
  function FindById(s: Tables, id: int): (r: Result<Product>)
    ensures r.Ok? <==> id in s.products
    ensures r.Ok? ==> r.value == s.products[id]
    ensures r.Err? ==> r.error == NotFound(Text(IdText("Product not found. id=", id)))
  {
    if id in s.products then Ok(s.products[id])
    else Err(NotFound(Text(IdText("Product not found. id=", id))))
  }

  /** `create(name, price, imageUrl, categoryId)`: the name is checked before the category is
      looked up; a failure saves nothing; success inserts exactly one product under a fresh id. */
  function CreateSpec(s: Tables, name: Nullable<string>, price: int, imageUrl: string, categoryId: int)
    : (st: Step<Entry<Product>>)
    requires WellFormed(s)
    ensures WellFormed(st.next)
    ensures st.result.Err? ==> st.next == s
    ensures NameErrors(name) != [] ==> st.result == Err(NameCheck(name).error)
    ensures NameErrors(name) == [] && categoryId !in s.categories ==>
              st.result == Err(NotFound(Text(IdText("Category not found. id=", categoryId))))
    ensures st.result.Ok? <==> NameErrors(name) == [] && categoryId in s.categories
    ensures st.result.Ok? ==>
              && name.NonNull?
              && st.result.value.id !in s.products
              && st.result.value.value == Product(name.value, price, imageUrl, categoryId)
              && st.next == s.(products := s.products[st.result.value.id := st.result.value.value],
                               nextId := s.nextId + 1)
  {
    match NameCheck(name)
    case Fail(e) => Step(Err(e), s)
    case Pass =>
      match CategoryService.FindById(s, categoryId)
      case Err(e) => Step(Err(e), s)
      case Ok(_) =>
        var product := Product(name.value, price, imageUrl, categoryId);
        var id := s.nextId;
        Step(Ok(Entry(id, product)), s.(products := s.products[id := product], nextId := id + 1))
  }

  method Create(db: Database, name: Nullable<string>, price: int, imageUrl: string, categoryId: int)
    returns (r: Result<Entry<Product>>)
    requires db.Valid()
    modifies db
    ensures db.Valid()
    ensures Step(r, db.Snapshot()) == CreateSpec(old(db.Snapshot()), name, price, imageUrl, categoryId)
  {
    var check := ValidateName(name);
    if check.Fail? {
      return Err(check.error);
    }
    var category := CategoryService.FindById(db.Snapshot(), categoryId);
    if category.Err? {
      return Err(category.error);
    }
    var product := Product(name.value, price, imageUrl, categoryId);
    var id := db.GenerateId();
    db.products := db.products[id := product];
    r := Ok(Entry(id, product));
  }

  /** `update(id, name, price, imageUrl, categoryId)`: checks the name, then the category, then
      the product; any failure leaves every table unchanged; success replaces the four fields of
      that product only. */
  function UpdateSpec(s: Tables, id: int, name: Nullable<string>, price: int, imageUrl: string, categoryId: int)
    : (st: Step<Entry<Product>>)
    ensures WellFormed(s) ==> WellFormed(st.next)
    ensures st.result.Err? ==> st.next == s
    ensures NameErrors(name) != [] ==> st.result == Err(NameCheck(name).error)
    ensures NameErrors(name) == [] && categoryId !in s.categories ==>
              st.result == Err(NotFound(Text(IdText("Category not found. id=", categoryId))))
    ensures NameErrors(name) == [] && categoryId in s.categories && id !in s.products ==>
              st.result == Err(NotFound(Text(IdText("Product not found. id=", id))))
    ensures st.result.Ok? <==> NameErrors(name) == [] && categoryId in s.categories && id in s.products
    ensures st.result.Ok? ==>
              && name.NonNull?
              && st.result.value == Entry(id, Product(name.value, price, imageUrl, categoryId))
              && st.next == s.(products := s.products[id := st.result.value.value])
  {
    match NameCheck(name)
    case Fail(e) => Step(Err(e), s)
    case Pass =>
      match CategoryService.FindById(s, categoryId)
      case Err(e) => Step(Err(e), s)
      case Ok(_) =>
        match FindById(s, id)
        case Err(e) => Step(Err(e), s)
        case Ok(product) =>
          var updated := product.(name := name.value, price := price, imageUrl := imageUrl, categoryId := categoryId);
          Step(Ok(Entry(id, updated)), s.(products := s.products[id := updated]))
  }

  method Update(db: Database, id: int, name: Nullable<string>, price: int, imageUrl: string, categoryId: int)
    returns (r: Result<Entry<Product>>)
    requires db.Valid()
    modifies db
    ensures db.Valid()
    ensures Step(r, db.Snapshot()) == UpdateSpec(old(db.Snapshot()), id, name, price, imageUrl, categoryId)
  {
    var check := ValidateName(name);
    if check.Fail? {
      return Err(check.error);
    }
    var category := CategoryService.FindById(db.Snapshot(), categoryId);
    if category.Err? {
      return Err(category.error);
    }
    var found := FindById(db.Snapshot(), id);
    if found.Err? {
      return Err(found.error);
    }
    var product := found.value.(name := name.value, price := price, imageUrl := imageUrl, categoryId := categoryId);
    db.products := db.products[id := product];
    r := Ok(Entry(id, product));
  }

  /** `delete(id)`: `deleteById` removes the row if there is one and silently does nothing
      otherwise. */
  function DeleteSpec(s: Tables, id: int): (st: Step<()>)
    ensures WellFormed(s) ==> WellFormed(st.next)
    ensures st.result.Ok?
    ensures st.next.products.Keys == s.products.Keys - {id}
    ensures forall k :: k in st.next.products ==> st.next.products[k] == s.products[k]
    ensures st.next == s.(products := st.next.products)
  {
    Step(Ok(()), s.(products := s.products - {id}))
  }

  method Delete(db: Database, id: int) returns (r: Result<()>)
    requires db.Valid()
    modifies db
    ensures db.Valid()
    ensures Step(r, db.Snapshot()) == DeleteSpec(old(db.Snapshot()), id)
  {
    db.products := db.products - {id};
    r := Ok(());
  }

  /** A product name containing 카카오 is always refused by create and update, whatever else holds:
      the service has no way to allow it. */
  lemma {:induction false} KakaoNameRefused(s: Tables, id: int, name: string, price: int, imageUrl: string, categoryId: int)
    requires WellFormed(s)
    requires NameValidator.Contains(name, NameValidator.KAKAO)
    ensures CreateSpec(s, NonNull(name), price, imageUrl, categoryId).result.error.IllegalArgument?
    ensures UpdateSpec(s, id, NonNull(name), price, imageUrl, categoryId).result.error.IllegalArgument?
  {
    var check := NameCheck(NonNull(name));
    assert check.Fail?;
  }
}

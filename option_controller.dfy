/** OptionController (gift.option): the option endpoints under /api/products/{productId}/options.
    The controller repeats the service's rules itself, reading the product table directly; each
    endpoint is proved to behave exactly like the corresponding OptionService operation. */
module OptionController {
  import opened Common
  import opened Store
  import NameValidator
  import OptionService
  import ProductService

  /** The controller's own `validateName`. */
  method ValidateName(name: Nullable<string>) returns (o: Outcome)
    ensures o == OptionService.NameCheck(name)
  {
    var errors := NameValidator.ValidateDefault(name, "Option name", 50);
    if errors != [] {
      return Fail(IllegalArgument(Text(Join(", ", errors))));
    }
    return Pass;
  }

  /** GET: the options of an existing product, or NotFound; the same as the service's
      `findByProductId`. */
  function GetOptions(s: Tables, productId: int): (r: Result<map<int, Option>>)
    ensures r == OptionService.FindByProductId(s, productId)
  {
    match ProductService.FindById(s, productId)
    case Err(e) => Err(e)
    case Ok(_) => Ok(OptionService.OptionsOf(s.options, productId))
  }

  /** POST: answers 201 with the new option; every outcome and every table effect equals the
      service's `create`. */
  method CreateOption(db: Database, productId: int, name: Nullable<string>, quantity: int)
    returns (r: Result<Entry<Option>>)
    requires db.Valid()
    modifies db
    ensures db.Valid()
    ensures Step(r, db.Snapshot()) == OptionService.CreateSpec(old(db.Snapshot()), productId, name, quantity)
  {
    var check := ValidateName(name);
    if check.Fail? {
      return Err(check.error);
    }
    var product := ProductService.FindById(db.Snapshot(), productId);
    if product.Err? {
      return Err(product.error);
    }
    if OptionService.NameTaken(db.options, productId, name.value) {
      return Err(IllegalArgument(Text("Option name already exists.")));
    }
    var option := Option(productId, name.value, quantity);
    var id := db.GenerateId();
    db.options := db.options[id := option];
    r := Ok(Entry(id, option));
  }

  /** DELETE /{optionId}: answers 204; every outcome and every table effect equals the service's
      `delete`. */
  method DeleteOption(db: Database, productId: int, optionId: int) returns (r: Result<()>)
    requires db.Valid()
    modifies db
    ensures db.Valid()
    ensures Step(r, db.Snapshot()) == OptionService.DeleteSpec(old(db.Snapshot()), productId, optionId)
  {
    var product := ProductService.FindById(db.Snapshot(), productId);
    if product.Err? {
      return Err(product.error);
    }
    var options := OptionService.OptionsOf(db.options, productId);
    if |options| <= 1 {
      return Err(IllegalArgument(Text("Cannot delete the last option of a product.")));
    }
    if optionId !in db.options {
      return Err(NotFound(Text(IdText("Option not found. id=", optionId))));
    }
    var option := db.options[optionId];
    if option.productId != productId {
      return Err(NotFound(Text(IdText("Option not found. id=", optionId))));
    }
    db.options := db.options - {optionId};
    r := Ok(());
  }
}

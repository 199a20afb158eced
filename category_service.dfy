/** CategoryService (gift.category): plain CRUD over the category table. */
module CategoryService {
  import opened Common
  import opened Store

  datatype CategoryRequest = CategoryRequest(name: string, color: string, imageUrl: string, description: string)

  /** `request.toEntity()`. */
  function ToEntity(request: CategoryRequest): Category
  {
    Category(request.name, request.color, request.imageUrl, request.description)
  }

  /** `findAll()`: every stored category with its id, and nothing else. */
  function FindAll(s: Tables): (r: set<Entry<Category>>)
    ensures forall e :: e in r <==> e.id in s.categories && e.value == s.categories[e.id]
    ensures forall id :: id in s.categories ==> Entry(id, s.categories[id]) in r
  {
    set id | id in s.categories :: Entry(id, s.categories[id])
  }

  /** `findById(id)`: the stored category, or NoSuchElementException naming the id. */
  function FindById(s: Tables, id: int): (r: Result<Category>)
    ensures r.Ok? <==> id in s.categories
    ensures r.Ok? ==> r.value == s.categories[id]
    ensures r.Err? ==> r.error == NotFound(Text(IdText("Category not found. id=", id)))
  {
    if id in s.categories then Ok(s.categories[id])
    else Err(NotFound(Text(IdText("Category not found. id=", id))))
  }

  /** `create(request)`: inserts the category under a fresh id; nothing can fail. */
  function CreateSpec(s: Tables, request: CategoryRequest): (st: Step<Entry<Category>>)
    requires WellFormed(s)
    ensures WellFormed(st.next)
    ensures st.result.Ok? && st.result.value.id !in s.categories
    ensures st.next.categories == s.categories[st.result.value.id := ToEntity(request)]
    ensures st.next == s.(categories := st.next.categories, nextId := st.next.nextId)
  {
    var id := s.nextId;
    Step(Ok(Entry(id, ToEntity(request))), s.(categories := s.categories[id := ToEntity(request)], nextId := id + 1))
  }

  method Create(db: Database, request: CategoryRequest) returns (r: Result<Entry<Category>>)
    requires db.Valid()
    modifies db
    ensures db.Valid()
    ensures Step(r, db.Snapshot()) == CreateSpec(old(db.Snapshot()), request)
  {
    var category := ToEntity(request);
    var id := db.GenerateId();
    db.categories := db.categories[id := category];
    r := Ok(Entry(id, category));
  }

  /** `update(id, request)`: an unknown id fails NotFound and changes nothing; otherwise the four
      fields of that category, and nothing else, are replaced. */
  function UpdateSpec(s: Tables, id: int, request: CategoryRequest): (st: Step<Entry<Category>>)
    ensures WellFormed(s) ==> WellFormed(st.next)
    ensures st.result.Err? <==> id !in s.categories
    ensures st.result.Err? ==> st.result.error.NotFound? && st.next == s
    ensures st.result.Ok? ==> st.result.value == Entry(id, ToEntity(request))
    ensures st.result.Ok? ==> st.next == s.(categories := s.categories[id := ToEntity(request)])
  {
    match FindById(s, id)
    case Err(e) => Step(Err(e), s)
    case Ok(category) =>
      var updated := category.(name := request.name, color := request.color,
                               imageUrl := request.imageUrl, description := request.description);
      Step(Ok(Entry(id, updated)), s.(categories := s.categories[id := updated]))
  }

  method Update(db: Database, id: int, request: CategoryRequest) returns (r: Result<Entry<Category>>)
    requires db.Valid()
    modifies db
    ensures db.Valid()
    ensures Step(r, db.Snapshot()) == UpdateSpec(old(db.Snapshot()), id, request)
  {
    var found := FindById(db.Snapshot(), id);
    if found.Err? {
      return Err(found.error);
    }
    var category := found.value.(name := request.name, color := request.color,
                                 imageUrl := request.imageUrl, description := request.description);
    db.categories := db.categories[id := category];
    r := Ok(Entry(id, category));
  }

  /** `delete(id)`: `deleteById` removes the row if there is one and silently does nothing
      otherwise. */
  function DeleteSpec(s: Tables, id: int): (st: Step<()>)
    ensures WellFormed(s) ==> WellFormed(st.next)
    ensures st.result.Ok?
    ensures id !in st.next.categories
    ensures st.next.categories.Keys == s.categories.Keys - {id}
    ensures forall k :: k in st.next.categories ==> st.next.categories[k] == s.categories[k]
    ensures st.next == s.(categories := st.next.categories)
  {
    Step(Ok(()), s.(categories := s.categories - {id}))
  }

  method Delete(db: Database, id: int) returns (r: Result<()>)
    requires db.Valid()
    modifies db
    ensures db.Valid()
    ensures Step(r, db.Snapshot()) == DeleteSpec(old(db.Snapshot()), id)
  {
    db.categories := db.categories - {id};
    r := Ok(());
  }

  /** Updating an existing category and reading it back gives exactly the request's fields. */
  lemma UpdateThenFind(s: Tables, id: int, request: CategoryRequest)
    requires id in s.categories
    ensures FindById(UpdateSpec(s, id, request).next, id) == Ok(ToEntity(request))
  {
  }
}

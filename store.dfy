/** The persistent state of the gift shop: one table per JPA repository, keyed by the generated
    id, and the `Database` object the services read and write. */
module Store {
  import opened Common

  datatype Category = Category(name: string, color: string, imageUrl: string, description: string)

  /** A product refers to its category by id. */
  datatype Product = Product(name: string, price: int, imageUrl: string, categoryId: int)

  /** An option of a product, holding its stock. */
  datatype Option = Option(productId: int, name: string, quantity: int)

  /** A member: the password is null for members created through Kakao login. */
  datatype Member = Member(email: string, password: Nullable<string>, point: int, kakaoAccessToken: Nullable<string>)

  datatype Wish = Wish(memberId: int, productId: int)

  datatype Order = Order(optionId: int, memberId: int, quantity: int, message: Nullable<string>)

  /** A stored row together with its id. */
  datatype Entry<T> = Entry(id: int, value: T)

  /** All tables, and the next value the identity generator hands out. */
  datatype Tables = Tables(
    categories: map<int, Category>,
    products: map<int, Product>,
    options: map<int, Option>,
    members: map<int, Member>,
    wishes: map<int, Wish>,
    orders: map<int, Order>,
    nextId: int)

  const EMPTY: Tables := Tables(map[], map[], map[], map[], map[], map[], 1)

  predicate IdsBelow<T>(m: map<int, T>, n: int)
  {
    forall id :: id in m ==> 1 <= id < n
  }

  /** Every stored id was handed out by the generator, so the next id is fresh in every table. */
  predicate WellFormed(s: Tables)
  {
    && s.nextId >= 1
    && IdsBelow(s.categories, s.nextId)
    && IdsBelow(s.products, s.nextId)
    && IdsBelow(s.options, s.nextId)
    && IdsBelow(s.members, s.nextId)
    && IdsBelow(s.wishes, s.nextId)
    && IdsBelow(s.orders, s.nextId)
  }

  /** What a service call returns (or throws), and the tables after it. */
  datatype Step<T> = Step(result: Result<T>, next: Tables)

  /** The outcome of a derived query that Spring Data expects to match at most one row. */
  datatype Match<T> = NoMatch | OneMatch(entry: Entry<T>) | ManyMatches

  /** The single row among `ids`, if there is exactly one. */
  ghost function Pick<T>(m: map<int, T>, ids: set<int>): (r: Match<T>)
    requires ids <= m.Keys
    ensures r.NoMatch? <==> ids == {}
    ensures r.OneMatch? ==> ids == {r.entry.id} && r.entry.value == m[r.entry.id]
    ensures r.ManyMatches? <==> exists a, b :: a in ids && b in ids && a != b
  {
    if |ids| == 0 then NoMatch
    else
      HasElement(ids);
      var a :| a in ids;
      if |ids| == 1 then
        assert ids == {a} by { SingletonOf(ids, a); }
        OneMatch(Entry(a, m[a]))
      else
        HasElement(ids - {a});
        var b :| b in ids - {a};
        ManyMatches
  }

  lemma HasElement(ids: set<int>)
    requires |ids| > 0
    ensures exists a :: a in ids
  {
    assert (forall a :: a !in ids) ==> ids == {};
  }

  lemma SingletonOf(ids: set<int>, a: int)
    requires |ids| == 1 && a in ids
    ensures ids == {a}
  {
    assert |ids - {a}| == 0;
  }

  /** The query that expects at most one row, as the repository runs it. */
  method PickRow<T>(m: map<int, T>, ids: set<int>) returns (r: Match<T>)
    requires ids <= m.Keys
    ensures r == Pick(m, ids)
  {
    if |ids| == 0 {
      return NoMatch;
    }
    HasElement(ids);
    var a :| a in ids;
    if |ids| == 1 {
      SingletonOf(ids, a);
      return OneMatch(Entry(a, m[a]));
    }
    HasElement(ids - {a});
    var b :| b in ids - {a};
    return ManyMatches;
  }

  /** The rows of a table that satisfy a query's condition, as a sub-table. */
  function Restrict<T>(m: map<int, T>, ids: set<int>): (r: map<int, T>)
    ensures r.Keys == m.Keys * ids
    ensures forall id :: id in r ==> r[id] == m[id]
  {
    map id | id in m && id in ids :: m[id]
  }

  /** `Long` and `int` values in messages are rendered in decimal. */
  function IdText(prefix: string, id: int): string
  {
    prefix + DecimalString(id)
  }

  /** The database: every table, updated in place by the repositories' save and delete. */
  class Database {
    var categories: map<int, Category>
    var products: map<int, Product>
    var options: map<int, Option>
    var members: map<int, Member>
    var wishes: map<int, Wish>
    var orders: map<int, Order>
    var nextId: int

    function Snapshot(): Tables
      reads this
    {
      Tables(categories, products, options, members, wishes, orders, nextId)
    }

    predicate Valid()
      reads this
    {
      WellFormed(Snapshot())
    }

    constructor()
      ensures Snapshot() == EMPTY
      ensures Valid()
    {
      categories, products, options, members, wishes, orders := map[], map[], map[], map[], map[], map[];
      nextId := 1;
    }

    /** The identity column: the id of the row being inserted. */
    method GenerateId() returns (id: int)
      requires Valid()
      modifies this
      ensures id == old(nextId) && nextId == id + 1
      ensures Snapshot() == old(Snapshot()).(nextId := id + 1)
      ensures id >= 1 && Valid()
    {
      id := nextId;
      nextId := nextId + 1;
    }
  }
}

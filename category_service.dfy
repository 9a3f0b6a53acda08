/** CategoryServiceImpl: a catalogue of categories whose names are unique
    among the ACTIVE ones, with soft deletion refused while a report uses
    the category. */
module CategoryService {
  import opened Common
  import opened Domain
  import opened Repository

  /** findAllByStatus: the categories with the given status. */
  function WithStatus(cats: map<CategoryId, Category>, status: CategoryStatus): (m: map<CategoryId, Category>)
    ensures forall id :: id in m <==> id in cats && cats[id].status == status
    ensures forall id :: id in m ==> m[id] == cats[id]
  {
    map id | id in cats && cats[id].status == status :: cats[id]
  }

  /** findAll: the ACTIVE categories. */
  function FindAll(cats: map<CategoryId, Category>): (m: map<CategoryId, Category>)
    ensures forall id :: id in m <==> id in cats && cats[id].status == ActiveCategory
    ensures forall id :: id in m ==> m[id] == cats[id]
  {
    WithStatus(cats, ActiveCategory)
  }

  /** getAllCategoryNames: the names of the ACTIVE categories. */
  function AllCategoryNames(cats: map<CategoryId, Category>): (names: set<string>)
    ensures forall n :: n in names <==> ActiveNameTaken(cats, n)
  {
    set id | id in cats && cats[id].status == ActiveCategory :: cats[id].name
  }

  /** findActiveById, which findById and update go through: a category that
      is missing or DELETED is not found. */
  function FindActiveById(cats: map<CategoryId, Category>, id: CategoryId): (r: Result<Category>)
    ensures r.Ok? <==> id in cats && cats[id].status == ActiveCategory
    ensures r.Ok? ==> r.value == cats[id]
    ensures r.Err? ==> r.error == NotFound
  {
    if id in cats && cats[id].status == ActiveCategory then Ok(cats[id]) else Err(NotFound)
  }

  /** The reports whose category list contains the category. */
  function ReportsUsing(reports: map<ReportId, Report>, id: CategoryId): set<ReportId>
  {
    set rid | rid in reports && id in reports[rid].categories
  }

  /** countReportsUsingCategory. */
  function UsageCount(reports: map<ReportId, Report>, id: CategoryId): nat
  {
    |ReportsUsing(reports, id)|
  }

  /** existsByCategoriesContaining agrees with the count being positive. */
  lemma InUseIffCounted(reports: map<ReportId, Report>, id: CategoryId)
    ensures UsageCount(reports, id) > 0 <==> exists rid :: rid in reports && id in reports[rid].categories
  {
    if rid :| rid in reports && id in reports[rid].categories {
      assert rid in ReportsUsing(reports, id);
    }
  }

  /** While the ACTIVE names are unique, getAllCategoryNames has exactly one
      name per category findAll returns. */
  lemma {:induction false} OneNamePerActiveCategory(cats: map<CategoryId, Category>)
    requires ActiveNamesUnique(cats)
    ensures |AllCategoryNames(cats)| == |FindAll(cats).Keys|
    decreases |cats.Keys|
  {
    if FindAll(cats).Keys == {} {
      assert AllCategoryNames(cats) == {};
    } else {
      var id :| id in FindAll(cats).Keys;
      var rest := cats - {id};
      assert rest.Keys == cats.Keys - {id};
      assert ActiveNamesUnique(rest);
      OneNamePerActiveCategory(rest);
      ActiveWithout(cats, id);
      NamesWithout(cats, id);
    }
  }

  lemma ActiveWithout(cats: map<CategoryId, Category>, id: CategoryId)
    requires id in cats && cats[id].status == ActiveCategory
    ensures FindAll(cats - {id}).Keys == FindAll(cats).Keys - {id}
    ensures |FindAll(cats - {id}).Keys| == |FindAll(cats).Keys| - 1
  {
  }

  lemma NamesWithout(cats: map<CategoryId, Category>, id: CategoryId)
    requires ActiveNamesUnique(cats)
    requires id in cats && cats[id].status == ActiveCategory
    ensures AllCategoryNames(cats - {id}) == AllCategoryNames(cats) - {cats[id].name}
    ensures |AllCategoryNames(cats - {id})| == |AllCategoryNames(cats)| - 1
  {
    var rest := cats - {id};
    forall n ensures n in AllCategoryNames(rest) <==> n in AllCategoryNames(cats) - {cats[id].name} {
      if n in AllCategoryNames(rest) {
        var j :| j in rest && rest[j].status == ActiveCategory && rest[j].name == n;
        assert j in cats && j != id;
      }
      if n in AllCategoryNames(cats) - {cats[id].name} {
        var j :| j in cats && cats[j].status == ActiveCategory && cats[j].name == n;
        assert j in rest;
      }
    }
    assert cats[id].name in AllCategoryNames(cats);
  }

  /** Adding or renaming to an ACTIVE category whose name no other ACTIVE
      category has keeps the names unique. */
  lemma {:induction false} UniqueNameKeepsUnique(cats: map<CategoryId, Category>, id: CategoryId, c: Category)
    requires ActiveNamesUnique(cats)
    requires c.status == ActiveCategory ==>
      forall other :: other in cats && other != id && cats[other].status == ActiveCategory ==> cats[other].name != c.name
    ensures ActiveNamesUnique(cats[id := c])
  {
    var cats' := cats[id := c];
    forall a, b | a in cats' && b in cats' && a != b && cats'[a].status == ActiveCategory && cats'[b].status == ActiveCategory
      ensures cats'[a].name != cats'[b].name
    {
      if a != id && b != id {
        assert cats'[a] == cats[a] && cats'[b] == cats[b];
      }
    }
  }

  class Service {
    const store: Store

    constructor(store: Store)
      ensures this.store == store
    {
      this.store := store;
    }

    /** save: refused when an ACTIVE category has the name; the new
        category is ACTIVE. */
    method Save(name: string, description: string) returns (res: Result<CategoryId>)
      requires store.Valid()
      modifies store`categories, store`nextCategoryId
      ensures store.Valid()
      ensures res.Err? <==> ActiveNameTaken(old(store.categories), name)
      ensures res.Err? ==> res.error == ValueConflict && unchanged(store)
      ensures res.Ok? ==>
        && res.value == old(store.nextCategoryId) && res.value !in old(store.categories)
        && store.categories == old(store.categories)[res.value := Category(name, description, ActiveCategory)]
        && store.nextCategoryId == old(store.nextCategoryId) + 1
    {
      if ActiveNameTaken(store.categories, name) {
        return Err(ValueConflict);
      }
      var id := store.nextCategoryId;
      UniqueNameKeepsUnique(store.categories, id, Category(name, description, ActiveCategory));
      store.categories := store.categories[id := Category(name, description, ActiveCategory)];
      store.nextCategoryId := store.nextCategoryId + 1;
      res := Ok(id);
    }

    /** update: only an ACTIVE category; the name is checked only when it
        changes, so keeping it never conflicts. */
    method Update(id: CategoryId, name: string, description: string) returns (res: Result<Category>)
      requires store.Valid()
      modifies store`categories
      ensures store.Valid()
      ensures FindActiveById(old(store.categories), id).Err? ==> res == Err(NotFound)
      ensures FindActiveById(old(store.categories), id).Ok? ==>
        var c := old(store.categories)[id];
        && (c.name != name && ActiveNameTaken(old(store.categories), name) ==> res == Err(ValueConflict))
        && (c.name == name || !ActiveNameTaken(old(store.categories), name) ==>
              res == Ok(c.(name := name, description := description)))
      ensures res.Ok? ==> store.categories == old(store.categories)[id := res.value]
      ensures res.Err? ==> store.categories == old(store.categories)
    {
      var found := FindActiveById(store.categories, id);
      if found.Err? {
        return Err(found.error);
      }
      var c := found.value;
      if c.name != name && ActiveNameTaken(store.categories, name) {
        return Err(ValueConflict);
      }
      var c' := c.(name := name, description := description);
      UniqueNameKeepsUnique(store.categories, id, c');
      store.categories := store.categories[id := c'];
      res := Ok(c');
    }

    /** deleteById: a soft delete, refused while any report uses the
        category; deleting a DELETED category again is allowed. */
    method DeleteById(id: CategoryId) returns (o: Outcome)
      requires store.Valid()
      modifies store`categories
      ensures store.Valid()
      ensures id !in old(store.categories) ==> o == Fail(NotFound)
      ensures id in old(store.categories) && UsageCount(store.reports, id) > 0 ==>
        o == Fail(CategoryInUse(UsageCount(store.reports, id)))
      ensures o == Pass <==> id in old(store.categories) && UsageCount(store.reports, id) == 0
      ensures o.Fail? ==> store.categories == old(store.categories)
      ensures o == Pass ==> store.categories == old(store.categories)[id := old(store.categories)[id].(status := DeletedCategory)]
    {
      if id !in store.categories {
        return Fail(NotFound);
      }
      InUseIffCounted(store.reports, id);
      if exists rid :: rid in store.reports && id in store.reports[rid].categories {
        return Fail(CategoryInUse(UsageCount(store.reports, id)));
      }
      var c := store.categories[id];
      UniqueNameKeepsUnique(store.categories, id, c.(status := DeletedCategory));
      store.categories := store.categories[id := c.(status := DeletedCategory)];
      o := Pass;
    }
  }
}

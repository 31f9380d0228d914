/** The knowledge base: the searchable resource list with its category
    selector, and the colour each category is drawn in. */
module Resources {
  import opened Types
  import opened Seqs
  import opened Text

  /** The category selector: "all" or one category. */
  datatype CategoryFilter = AnyCategory | OnlyCategory(category: Category)

  /** The search box and the category selector above the list. */
  datatype ResourceQuery = ResourceQuery(term: string, category: CategoryFilter)

  /** The selectors' initial state: empty search, all categories. */
  const ShowAll: ResourceQuery := ResourceQuery("", AnyCategory)

  predicate CategoryAccepts(f: CategoryFilter, c: Category) {
    f.AnyCategory? || f.category == c
  }

  /** A resource is listed when it matches the search and the category selector. */
  predicate Keeps(q: ResourceQuery, res: Resource) {
    SearchMatches(res.title, res.description, q.term) && CategoryAccepts(q.category, res.category)
  }

  /** The resources listed for query `q`, in the fetched order. */
  function FilterResources(resources: seq<Resource>, q: ResourceQuery): (r: seq<Resource>)
    ensures |r| <= |resources|
    ensures forall i :: 0 <= i < |r| ==> r[i] in resources
    ensures forall i :: 0 <= i < |r| ==> SearchMatches(r[i].title, r[i].description, q.term)
    ensures q.category.OnlyCategory? ==> forall i :: 0 <= i < |r| ==> r[i].category == q.category.category
    ensures forall i :: 0 <= i < |resources| && Keeps(q, resources[i]) ==> resources[i] in r
  {
    Filter(resources, (res: Resource) => Keeps(q, res))
  }

  /** The listed resources keep their relative order. */
  lemma FilterResourcesIsSubseq(resources: seq<Resource>, q: ResourceQuery)
    ensures SubseqOf(FilterResources(resources, q), resources)
  {
    FilterIsSubseq(resources, (res: Resource) => Keeps(q, res));
  }

  /** With the selectors in their initial state every resource is listed. */
  lemma ShowAllKeepsEverything(resources: seq<Resource>)
    ensures FilterResources(resources, ShowAll) == resources
  {
    forall i | 0 <= i < |resources|
      ensures Keeps(ShowAll, resources[i])
    {
      EmptyTermMatches(resources[i].title, resources[i].description);
    }
    FilterKeepsAll(resources, (res: Resource) => Keeps(ShowAll, res));
  }

  /** The name a category is stored under. */
  function CategoryName(c: Category): string {
    match c
    case Notes => "notes"
    case Research => "research"
    case Ideas => "ideas"
    case Documents => "documents"
  }

  /** The colour for anything that is not a known category name. */
  const DefaultGrey: string := "#6B7280"

  /** The colour a resource's category is drawn in, looked up by name. */
  function CategoryColor(name: string): (color: string)
    ensures (forall c: Category :: name != CategoryName(c)) ==> color == DefaultGrey
  {
    if name == "notes" then assert name == CategoryName(Notes); "#FF9933"
    else if name == "research" then assert name == CategoryName(Research); "#138808"
    else if name == "ideas" then assert name == CategoryName(Ideas); "#000080"
    else if name == "documents" then assert name == CategoryName(Documents); "#8B5CF6"
    else DefaultGrey
  }

  /** Every category has a colour of its own, none of them the fallback grey. */
  lemma CategoryColorsDistinct(c: Category, d: Category)
    ensures CategoryColor(CategoryName(c)) != DefaultGrey
    ensures c != d ==> CategoryColor(CategoryName(c)) != CategoryColor(CategoryName(d))
  {
  }
}

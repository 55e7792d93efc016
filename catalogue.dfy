/**
 * The project catalogue: the hard-coded list of project records, the
 * category options offered by the filter selector, category filtering,
 * lookup by id for the detail acknowledgment, and card rendering reduced to
 * a sequence of card descriptors.
 */
module Catalogue {
  import opened Wrappers

  /** One project record.  `img` is the low-resolution placeholder,
      `fullImg` the full-resolution image loaded lazily. */
  datatype Project = Project(
    id: int, title: string, category: string, summary: string,
    img: string, fullImg: string, alt: string)

  /** The catalogue the page is built from. */
  const Projects: seq<Project> := [
    Project(1, "Cybersecurity Basics Workshop", "Workshop", "Intro to defensive tactics and safe coding.",
            "images/workshop-1-low.jpg", "images/workshop-1.jpg", "students at a workshop"),
    Project(2, "Portfolio Starter Template", "Template", "A responsive starter template for portfolios.",
            "images/portfolio-low.jpg", "images/portfolio.jpg", "portfolio screenshot")
  ]

  /** Identity of a project is its id; the catalogue is meant to hold each id once. */
  predicate UniqueIds(list: seq<Project>) {
    forall i, j | 0 <= i < j < |list| :: list[i].id != list[j].id
  }

  // ---------------------------------------------------------------------
  // Category options of the filter selector

  /** `projects.map(p => p.category)` */
  function CategoriesOf(list: seq<Project>): (cs: seq<string>)
    ensures |cs| == |list|
    ensures forall k | 0 <= k < |list| :: cs[k] == list[k].category
  {
    if list == [] then [] else [list[0].category] + CategoriesOf(list[1..])
  }

  /** Spreading a `Set` built from the categories `s`: each distinct element once, in the
      order in which it is first seen. */
  function Distinct(s: seq<string>): (r: seq<string>)
    ensures forall x :: x in r <==> x in s
    ensures forall i, j | 0 <= i < j < |r| :: r[i] != r[j]
  {
    if s == [] then []
    else
      var init := s[..|s| - 1];
      assert s == init + [s[|s| - 1]];
      var d := Distinct(init);
      if s[|s| - 1] in d then d else d + [s[|s| - 1]]
  }

  /** Position of the first occurrence of `x` in `s`. */
  function FirstIndex<T(==)>(s: seq<T>, x: T): (k: nat)
    requires x in s
    ensures k < |s| && s[k] == x
    ensures forall m | 0 <= m < k :: s[m] != x
  {
    if s[0] == x then 0 else 1 + FirstIndex(s[1..], x)
  }

  /** Extending a sequence does not move the first occurrence of an element
      the prefix already holds. */
  lemma {:induction false} FirstIndexOfPrefix<T>(s: seq<T>, n: nat, x: T)
    requires n <= |s| && x in s[..n]
    ensures FirstIndex(s, x) == FirstIndex(s[..n], x)
  {
    if s[0] != x {
      assert s[..n][1..] == s[1..][..n - 1];
      FirstIndexOfPrefix(s[1..], n - 1, x);
    }
  }

  /** The distinct elements come out in first-seen order. */
  lemma {:induction false} DistinctFirstSeenOrder(s: seq<string>)
    ensures forall i, j | 0 <= i < j < |Distinct(s)| ::
              FirstIndex(s, Distinct(s)[i]) < FirstIndex(s, Distinct(s)[j])
  {
    if s != [] {
      var n := |s| - 1;
      var init, last := s[..n], s[n];
      assert s == init + [last];
      DistinctFirstSeenOrder(init);
      var d := Distinct(init);
      forall x | x in d ensures FirstIndex(s, x) == FirstIndex(init, x) < n {
        FirstIndexOfPrefix(s, n, x);
      }
      if last !in d {
        assert last !in init;
        assert FirstIndex(s, last) == n;
      }
    }
  }

  /** `['all', ...new Set(projects.map(p => p.category))]` */
  function CategoryOptions(list: seq<Project>): (opts: seq<string>)
    ensures |opts| >= 1 && opts[0] == "all"
  {
    ["all"] + Distinct(CategoriesOf(list))
  }

  /** The option list is "all" followed by every category of the catalogue,
      each exactly once, in the order the catalogue first uses it. */
  lemma CategoryOptionsSpec(list: seq<Project>)
    ensures var opts := CategoryOptions(list);
      && opts[0] == "all"
      && (forall c :: c in opts[1..] <==> exists k | 0 <= k < |list| :: list[k].category == c)
      && (forall i, j | 1 <= i < j < |opts| :: opts[i] != opts[j])
      && (forall i, j | 1 <= i < j < |opts| ::
            FirstIndex(CategoriesOf(list), opts[i]) < FirstIndex(CategoriesOf(list), opts[j]))
  {
    var cs := CategoriesOf(list);
    var opts := CategoryOptions(list);
    assert opts[1..] == Distinct(cs);
    DistinctFirstSeenOrder(cs);
    forall c | c in cs ensures exists k | 0 <= k < |list| :: list[k].category == c {
      var k := FirstIndex(cs, c);
      assert list[k].category == c;
    }
    forall i, j | 1 <= i < j < |opts| ensures opts[i] != opts[j] {
      assert opts[i] == Distinct(cs)[i - 1] && opts[j] == Distinct(cs)[j - 1];
    }
  }

  // ---------------------------------------------------------------------
  // Category filtering

  /** `projects.filter(p => p.category === category)` */
  function OfCategory(list: seq<Project>, c: string): (r: seq<Project>)
    ensures |r| <= |list|
    ensures forall p :: p in r <==> p in list && p.category == c
  {
    if list == [] then []
    else (if list[0].category == c then [list[0]] else []) + OfCategory(list[1..], c)
  }

  /** Filtering keeps the relative order: it distributes over concatenation. */
  lemma {:induction false} OfCategoryAppend(a: seq<Project>, b: seq<Project>, c: string)
    ensures OfCategory(a + b, c) == OfCategory(a, c) + OfCategory(b, c)
  {
    if a == [] {
      assert a + b == b;
    } else {
      assert (a + b)[0] == a[0];
      assert (a + b)[1..] == a[1..] + b;
      OfCategoryAppend(a[1..], b, c);
    }
  }

  /** A list whose every project has category `c` passes the filter whole. */
  lemma {:induction false} OfCategoryAllMatch(list: seq<Project>, c: string)
    requires forall k | 0 <= k < |list| :: list[k].category == c
    ensures OfCategory(list, c) == list
  {
    if list != [] {
      OfCategoryAllMatch(list[1..], c);
    }
  }

  /** `filterProjects(category)`: the empty (falsy) value and "all" select the
      whole catalogue; any other value selects the projects of exactly that
      category, compared case-sensitively, in catalogue order. */
  function FilterProjects(list: seq<Project>, category: string): (r: seq<Project>)
    ensures category == "" || category == "all" ==> r == list
    ensures category != "" && category != "all" ==>
              r == OfCategory(list, category) && forall p :: p in r <==> p in list && p.category == category
  {
    if category == "" || category == "all" then list else OfCategory(list, category)
  }

  /** Every option the selector offers after "all" shows at least one card. */
  lemma OfferedCategoryIsNonEmpty(list: seq<Project>, c: string)
    requires c in CategoryOptions(list)[1..]
    ensures FilterProjects(list, c) != []
  {
    CategoryOptionsSpec(list);
    var k :| 0 <= k < |list| && list[k].category == c;
    assert list[k] in list;
  }

  // ---------------------------------------------------------------------
  // Lookup by id and the detail acknowledgment

  /** `projects.find(p => p.id === id)`: the first project with that id. */
  function FindProject(list: seq<Project>, id: int): (r: Option<Project>)
    ensures r.None? <==> forall k | 0 <= k < |list| :: list[k].id != id
    ensures r.Some? ==> exists k | 0 <= k < |list| ::
              list[k] == r.value && r.value.id == id && forall m | 0 <= m < k :: list[m].id != id
  {
    if list == [] then None
    else if list[0].id == id then Some(list[0])
    else
      var r := FindProject(list[1..], id);
      assert r.Some? ==> exists k | 0 <= k < |list[1..]| ::
        list[1..][k] == r.value && forall m | 0 <= m < k :: list[1..][m].id != id;
      assert r.Some? ==> exists k | 0 <= k < |list| ::
        list[k] == r.value && forall m | 0 <= m < k :: list[m].id != id;
      r
  }

  /** What `openProjectModal` shows: an error acknowledgment, or the title
      and summary of the project found. */
  datatype Modal = NotFound | Show(title: string, summary: string)

  /** The text of the acknowledgment dialog. */
  function ModalText(m: Modal): string {
    match m
    case NotFound => "Project not found."
    case Show(title, summary) => title + "\n\n" + summary
  }

  /** `openProjectModal(id)`. */
  function OpenProjectModal(list: seq<Project>, id: int): (m: Modal)
    ensures m.NotFound? <==> forall k | 0 <= k < |list| :: list[k].id != id
    ensures m.Show? ==> exists k | 0 <= k < |list| ::
              list[k].id == id && m == Show(list[k].title, list[k].summary)
              && forall j | 0 <= j < k :: list[j].id != id
  {
    match FindProject(list, id)
    case None => NotFound
    case Some(p) => Show(p.title, p.summary)
  }

  // ---------------------------------------------------------------------
  // Card rendering

  /** The content of one rendered card: the `data-id`, the image with its
      placeholder `src` and pending `data-src`, the alt text, the heading,
      the summary and the category label. */
  datatype Card = Card(
    id: int, src: string, dataSrc: string, alt: string,
    title: string, summary: string, category: string)

  /** The card of one project. */
  function CardOf(p: Project): Card {
    Card(p.id, p.img, p.fullImg, p.alt, p.title, p.summary, p.category)
  }

  /** Reads a project record back from its card. */
  function ProjectOf(c: Card): Project {
    Project(c.id, c.title, c.category, c.summary, c.src, c.dataSrc, c.alt)
  }

  /** A card carries every field of its record: reading it back gives the
      record. */
  lemma CardRoundTrip(p: Project)
    ensures ProjectOf(CardOf(p)) == p
  {
  }

  /** `list.map(p => <card>).join('')`: one card per record, in input order. */
  function RenderCards(list: seq<Project>): (cards: seq<Card>)
    ensures |cards| == |list|
    ensures forall k | 0 <= k < |list| :: cards[k] == CardOf(list[k])
  {
    if list == [] then [] else [CardOf(list[0])] + RenderCards(list[1..])
  }

  /** Reads the records back from a card list. */
  function ProjectsOf(cards: seq<Card>): (list: seq<Project>)
    ensures |list| == |cards|
    ensures forall k | 0 <= k < |cards| :: list[k] == ProjectOf(cards[k])
  {
    if cards == [] then [] else [ProjectOf(cards[0])] + ProjectsOf(cards[1..])
  }

  /** Rendering loses nothing: the records can be read back, complete and
      in order, from the cards. */
  lemma RenderRoundTrip(list: seq<Project>)
    ensures ProjectsOf(RenderCards(list)) == list
  {
    var back := ProjectsOf(RenderCards(list));
    forall k | 0 <= k < |list| ensures back[k] == list[k] {
      CardRoundTrip(list[k]);
    }
  }

  /** A card's click handler: `openProjectModal(Number(card.dataset.id))`. */
  function ActivateCard(list: seq<Project>, card: Card): (m: Modal)
    ensures m.NotFound? <==> forall k | 0 <= k < |list| :: list[k].id != card.id
    ensures m.Show? ==> exists k | 0 <= k < |list| ::
              list[k].id == card.id && m == Show(list[k].title, list[k].summary)
              && forall j | 0 <= j < k :: list[j].id != card.id
  {
    OpenProjectModal(list, card.id)
  }

  /** A card's keypress handler: Enter clicks the card, any other key does
      nothing. */
  function CardKeyPress(list: seq<Project>, card: Card, key: string): (r: Option<Modal>)
    ensures r.Some? <==> key == "Enter"
    ensures r.Some? ==> r.value == ActivateCard(list, card)
    ensures r.Some? ==> (r.value.NotFound? <==> forall k | 0 <= k < |list| :: list[k].id != card.id)
    ensures r.Some? && r.value.Show? ==> exists k | 0 <= k < |list| ::
              list[k].id == card.id && r.value == Show(list[k].title, list[k].summary)
  {
    if key == "Enter" then Some(ActivateCard(list, card)) else None
  }

  /** In a catalogue with unique ids, activating any card of a filtered view
      shows that card's own project. */
  lemma ActivatingCardShowsItsProject(list: seq<Project>, category: string, k: nat)
    requires UniqueIds(list)
    requires k < |FilterProjects(list, category)|
    ensures var p := FilterProjects(list, category)[k];
      ActivateCard(list, RenderCards(FilterProjects(list, category))[k]) == Show(p.title, p.summary)
  {
    var shown := FilterProjects(list, category);
    var p := shown[k];
    assert p in shown;
    assert p in list;
    var i :| 0 <= i < |list| && list[i] == p;
    var m := OpenProjectModal(list, p.id);
    assert !m.NotFound?;
    var j :| 0 <= j < |list| && list[j].id == p.id && m == Show(list[j].title, list[j].summary)
             && forall q | 0 <= q < j :: list[q].id != p.id;
    assert j == i;
  }

  /** Pressing Enter on card `k` of a filtered view shows that card's own
      project, as a click does; any other key shows nothing. */
  lemma EnterShowsCardsProject(list: seq<Project>, category: string, k: nat, key: string)
    requires UniqueIds(list)
    requires k < |FilterProjects(list, category)|
    ensures var p := FilterProjects(list, category)[k];
      CardKeyPress(list, RenderCards(FilterProjects(list, category))[k], key)
        == (if key == "Enter" then Some(Show(p.title, p.summary)) else None)
  {
    ActivatingCardShowsItsProject(list, category, k);
  }

  /** The catalogue shipped with the page offers "all", "Workshop" and
      "Template", and its ids are unique. */
  lemma ShippedCatalogue()
    ensures CategoryOptions(Projects) == ["all", "Workshop", "Template"]
    ensures UniqueIds(Projects)
  {
    assert CategoriesOf(Projects) == ["Workshop", "Template"];
    var cs := CategoriesOf(Projects);
    assert cs[..1] == ["Workshop"];
    assert Distinct(cs[..1]) == ["Workshop"];
  }

  // ---------------------------------------------------------------------
  // The projects container

  /** The element the cards are mounted into. */
  class Container {
    var cards: seq<Card>

    constructor ()
      ensures cards == []
    {
      cards := [];
    }

    /** `renderProjects(list, container)`: replaces the whole content of the
        container with the cards of `list`. */
    method RenderProjects(list: seq<Project>)
      modifies this
      ensures cards == RenderCards(list)
      ensures ProjectsOf(cards) == list
    {
      var html := RenderCards(list);
      cards := html;
      RenderRoundTrip(list);
    }

    /** The filter selector's change handler: `filterProjects(value)` renders
        the selected subset into the container. */
    method FilterChanged(list: seq<Project>, value: string)
      modifies this
      ensures cards == RenderCards(FilterProjects(list, value))
    {
      RenderProjects(FilterProjects(list, value));
    }
  }
}

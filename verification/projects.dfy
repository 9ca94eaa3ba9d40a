/** The project gallery of src/components/Projects.tsx: the list of expanded
    card ids, the category filter, the lightbox record, and what a card shows
    (its expanded flag, the first metrics on its image badge). */
module Projects {
  import opened Options
  import opened Seqs

  datatype Project = Project(
    id: int,
    title: string,
    image: string,
    category: string,
    metrics: Option<seq<string>>)

  datatype Lightbox = Lightbox(open: bool, src: string, title: string)

  datatype Gallery = Gallery(lightbox: Lightbox, expandedIds: seq<int>, filter: string)

  const AllCategory: string := "all"
  const Categories: seq<string> := [AllCategory, "analytics", "business", "research"]

  /** The four cards, with their ids, images, categories and metrics. */
  const Catalogue: seq<Project> := [
    Project(1, "Road Accident Analysis", "/images/road-accident.png.png", "analytics",
      Some(["418K+ Records", "40% Time Saved", "Multi-Region Analysis"])),
    Project(2, "Pizza Sales Analysis", "/images/pizza-sales.png.png", "business",
      Some(["$817.8K Revenue", "49.5K Pizzas", "35% Faster Reports"])),
    Project(3, "Data Field Exploration", "/images/data-fields.png.png", "research",
      Some(["48.9% SQL Demand", "$111K Max Salary", "Market Analysis"])),
    Project(4, "Electric Vehicle Dashboard", "/images/ev-dashboard.png.png", "analytics",
      Some(["State-wise Analysis", "Growth Trends", "Policy Insights"]))
  ]

  /** The image badge shows at most this many metrics (`slice(0, 2)`). */
  const BadgeMetricCount: nat := 2

  const ClosedLightbox: Lightbox := Lightbox(false, "", "")

  function Init(): Gallery
  {
    Gallery(ClosedLightbox, [], AllCategory)
  }

  /** `toggleExpand(id)`: remove every occurrence of id if present, append it otherwise. */
  function ToggleExpand(ids: seq<int>, id: int): (r: seq<int>)
    ensures id in r <==> id !in ids
    ensures forall x :: x != id ==> (x in r <==> x in ids)
    ensures Distinct(ids) ==> Distinct(r)
  {
    if id in ids then
      var keep := (x: int) => x != id;
      var r := Filter(ids, keep);
      assert forall x :: x in ids && x != id ==> x in r by {
        forall x | x in ids && x != id ensures x in r {
          var i :| 0 <= i < |ids| && ids[i] == x;
        }
      }
      assert Distinct(ids) ==> Distinct(r) by {
        if Distinct(ids) { FilterPreservesDistinct(ids, keep); }
      }
      r
    else
      ids + [id]
  }

  /** Toggling twice restores membership of every id; from a collapsed card it
      restores the list exactly. */
  lemma ToggleTwice(ids: seq<int>, id: int)
    ensures forall x :: x in ToggleExpand(ToggleExpand(ids, id), id) <==> x in ids
    ensures id !in ids ==> ToggleExpand(ToggleExpand(ids, id), id) == ids
  {
    if id !in ids {
      var once := ids + [id];
      var keep := (x: int) => x != id;
      assert Filter(once, keep) == Filter(ids, keep) by {
        FilterAppendRejected(ids, id, keep);
      }
      FilterKeepsAll(ids, keep);
    }
  }

  lemma {:induction false} FilterAppendRejected<T>(s: seq<T>, x: T, p: T -> bool)
    requires !p(x)
    ensures Filter(s + [x], p) == Filter(s, p)
    decreases |s|
  {
    if |s| == 0 {
      assert s + [x] == [x];
      assert [x][1..] == [];
    } else {
      FilterAppendRejected(s[1..], x, p);
      assert (s + [x])[1..] == s[1..] + [x];
    }
  }

  /** `filteredProjects`: every card for 'all', otherwise exactly the cards of
      that category, in catalogue order. */
  function FilterProjects(ps: seq<Project>, filter: string): (r: seq<Project>)
    ensures filter == AllCategory ==> r == ps
    ensures filter != AllCategory ==>
      && (forall i :: 0 <= i < |r| ==> r[i] in ps && r[i].category == filter)
      && (forall i :: 0 <= i < |ps| && ps[i].category == filter ==> ps[i] in r)
    ensures IsSubsequence(r, ps)
  {
    if filter == AllCategory then
      FilterKeepsAll(ps, (p: Project) => true);
      FilterIsSubsequence(ps, (p: Project) => true);
      ps
    else
      var keep := (p: Project) => p.category == filter;
      FilterIsSubsequence(ps, keep);
      Filter(ps, keep)
  }

  /** A category filter keeps every copy of a project of that category and no
      copy of any other project. */
  lemma FilterProjectsCounts(ps: seq<Project>, filter: string)
    requires filter != AllCategory
    ensures forall x :: multiset(FilterProjects(ps, filter))[x] == if x.category == filter then multiset(ps)[x] else 0
  {
    FilterCounts(ps, (p: Project) => p.category == filter);
  }

  /** A rendered card: the project and whether it shows its details. */
  datatype Card = Card(project: Project, isExpanded: bool)

  /** The cards the grid renders: one per filtered project, in order, each
      expanded iff its id is in `expandedIds`. */
  function Cards(g: Gallery, ps: seq<Project>): (r: seq<Card>)
    ensures |r| == |FilterProjects(ps, g.filter)|
    ensures forall i :: 0 <= i < |r| ==>
      r[i].project == FilterProjects(ps, g.filter)[i] && (r[i].isExpanded <==> r[i].project.id in g.expandedIds)
  {
    var shown := FilterProjects(ps, g.filter);
    seq(|shown|, i requires 0 <= i < |shown| => Card(shown[i], shown[i].id in g.expandedIds))
  }

  /** The metrics on a card's image badge: the first (at most two) of them,
      none for a project without metrics. */
  function BadgeMetrics(p: Project): (r: seq<string>)
    ensures |r| <= BadgeMetricCount
    ensures p.metrics.None? ==> r == []
    ensures p.metrics.Some? ==> r <= p.metrics.value && |r| == Min(BadgeMetricCount, |p.metrics.value|)
  {
    match p.metrics
    case None => []
    case Some(m) => Slice(m, 0, BadgeMetricCount)
  }

  datatype Event =
    | ToggleCard(id: int)
    | OpenLightbox(src: string, title: string)
    | CloseLightbox
    | SetFilter(category: string)

  function Step(g: Gallery, e: Event): Gallery
  {
    match e
    case ToggleCard(id) => g.(expandedIds := ToggleExpand(g.expandedIds, id))
    case OpenLightbox(src, title) => g.(lightbox := Lightbox(true, src, title))
    case CloseLightbox => g.(lightbox := ClosedLightbox)
    case SetFilter(c) => if c in Categories then g.(filter := c) else g
  }

  /** Opening shows the given image and title, closing restores the initial
      record whatever was open, and neither touches the cards or the filter. */
  lemma LightboxOpenClose(g: Gallery, src: string, title: string)
    ensures Step(g, OpenLightbox(src, title)).lightbox == Lightbox(true, src, title)
    ensures Step(Step(g, OpenLightbox(src, title)), CloseLightbox).lightbox == Init().lightbox
    ensures Step(Step(g, OpenLightbox(src, title)), CloseLightbox) == g.(lightbox := ClosedLightbox)
  {
  }

  predicate Inv(g: Gallery)
  {
    Distinct(g.expandedIds) && g.filter in Categories && (!g.lightbox.open ==> g.lightbox == ClosedLightbox)
  }

  function Run(g: Gallery, events: seq<Event>): Gallery
    decreases |events|
  {
    if |events| == 0 then g else Run(Step(g, events[0]), events[1..])
  }

  /** From the initial gallery no id is ever listed twice, the filter is one of
      the four category buttons, and a closed lightbox holds no image. */
  lemma {:induction false} GalleryInvariant(g: Gallery, events: seq<Event>)
    requires Inv(g)
    ensures Inv(Run(g, events))
    decreases |events|
  {
    if |events| > 0 {
      GalleryInvariant(Step(g, events[0]), events[1..]);
    }
  }

  /** A shown project's card carries its expansion flag. */
  lemma CardOf(g: Gallery, ps: seq<Project>, p: Project)
    requires p in FilterProjects(ps, g.filter)
    ensures Card(p, p.id in g.expandedIds) in Cards(g, ps)
  {
    var shown := FilterProjects(ps, g.filter);
    var i :| 0 <= i < |shown| && shown[i] == p;
    assert Cards(g, ps)[i] == Card(p, p.id in g.expandedIds);
  }

  /** Changing the filter keeps `expandedIds`: a card hidden while expanded
      shows its details again when it comes back. */
  lemma FilterKeepsExpansion(g: Gallery, ps: seq<Project>, c: string, p: Project)
    requires c in Categories && p in ps && (c == AllCategory || p.category == c)
    ensures Card(p, p.id in g.expandedIds) in Cards(Step(g, SetFilter(c)), ps)
  {
    var i :| 0 <= i < |ps| && ps[i] == p;
    assert p in FilterProjects(ps, c);
    SetFilterStep(g, c);
    CardOf(g.(filter := c), ps, p);
  }

  /** Choosing one of the category buttons changes only the filter. */
  lemma SetFilterStep(g: Gallery, c: string)
    requires c in Categories
    ensures Step(g, SetFilter(c)) == g.(filter := c)
  {
  }

  /** The 'analytics' button shows the first and the last card of the
      catalogue, in that order. */
  lemma AnalyticsCards()
    ensures FilterProjects(Catalogue, "analytics") == [Catalogue[0], Catalogue[3]]
  {
  }
}

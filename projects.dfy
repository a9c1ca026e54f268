/** The projects section: a fixed list of projects and the category filter
    chosen with the filter buttons. */
module Projects {
  import opened Sequences

  datatype Project = Project(
    id: nat,
    title: string,
    description: string,
    image: string,
    tags: seq<string>,
    category: string,
    github: string,
    live: string,
    featured: bool)

  /** A filter button; `caption` is the button's `label` (a reserved word in Dafny). */
  datatype FilterButton = FilterButton(id: string, caption: string)

  /** The filter that shows every project. */
  const All := "all"

  const ProjectList: seq<Project> := [
    Project(1, "3D Portfolio Template",
      "Interactive 3D portfolio website template with Three.js animations and immersive experience.",
      "/projects/portfolio.jpg", ["React", "Three.js", "GSAP"], "web",
      "https://github.com", "https://example.com", true),
    Project(2, "Shoyambhu Motors",
      "Collaborative car servicing management tool with real-time updates and other features.",
      "/projects/tasks.jpg", ["React", "Firebase", "Flutter"], "mobile",
      "https://github.com", "https://example.com", false)
  ]

  const Filters: seq<FilterButton> := [
    FilterButton("all", "All Projects"),
    FilterButton("web", "Web Apps"),
    FilterButton("mobile", "Mobile"),
    FilterButton("ai", "AI/ML")
  ]

  /** The test `project.category === activeFilter`. */
  function InCategory(c: string): Project -> bool
  {
    (p: Project) => p.category == c
  }

  /** `filteredProjects`: every project for "all", otherwise those of the chosen category. */
  function FilteredProjects(activeFilter: string, projects: seq<Project>): (r: seq<Project>)
    ensures activeFilter == All ==> r == projects
    ensures activeFilter != All ==> forall p :: p in r ==> p.category == activeFilter
    ensures activeFilter != All ==>
              forall p :: p in projects && p.category == activeFilter ==> p in r
    ensures SubsequenceOf(r, projects) && |r| <= |projects|
    ensures activeFilter != All ==>
              forall p :: p in projects ==>
                multiset(r)[p] == if p.category == activeFilter then multiset(projects)[p] else 0
  {
    if activeFilter == All then
      SubsequenceOfSelf(projects);
      projects
    else Filter(projects, InCategory(activeFilter))
  }

  /** The buttons fit the data: the first shows everything, each listed project
      appears under some other button, and no other button is empty unless no
      project has its category. */
  lemma FiltersCoverProjects()
    ensures Filters[0].id == All
    ensures forall p :: p in ProjectList ==>
              exists f :: f in Filters && f.id != All && p in FilteredProjects(f.id, ProjectList)
    ensures forall f :: f in Filters && f.id != All && FilteredProjects(f.id, ProjectList) == [] ==>
              forall p :: p in ProjectList ==> p.category != f.id
  {
    forall p | p in ProjectList
      ensures exists f :: f in Filters && f.id != All && p in FilteredProjects(f.id, ProjectList)
    {
      var f := if p.category == "web" then Filters[1] else Filters[2];
      assert f in Filters && f.id == p.category;
    }
  }

  /** With the listed data: no project is in "ai", only project 1 is in "web",
      only project 2 is in "mobile". */
  lemma ListedData()
    ensures FilteredProjects("ai", ProjectList) == []
    ensures FilteredProjects("web", ProjectList) == [ProjectList[0]] && ProjectList[0].id == 1
    ensures FilteredProjects("mobile", ProjectList) == [ProjectList[1]] && ProjectList[1].id == 2
  {
    var a, b := ProjectList[0], ProjectList[1];
    assert ProjectList == [a, b];
    assert a.category == "web" && b.category == "mobile";
    FilterTwo(a, b, "ai");
    FilterTwo(a, b, "web");
    FilterTwo(a, b, "mobile");
  }

  /** Filtering a two-project list by a category. */
  lemma FilterTwo(a: Project, b: Project, c: string)
    requires c != All
    ensures FilteredProjects(c, [a, b]) ==
              (if a.category == c then [a] else []) + (if b.category == c then [b] else [])
  {
    assert [a, b] == [a] + [b] && [b] == [b] + [];
    FilterCons(a, [b], InCategory(c));
    FilterCons(b, [], InCategory(c));
  }
}

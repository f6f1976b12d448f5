/**
 * The Backlog job property: an immutable record holding the URL of a Backlog
 * space or project, the user id and two secrets, built by a constructor that
 * normalises the URL, and the two values derived from the stored URL: the
 * space URL and the project key.
 */
module BacklogProjectProperty {
  import opened Wrappers
  import opened JavaStrings

  /** The path segment that separates a space URL from a project key. */
  const ProjectsSegment: string := "/projects/"

  /** A secret handed to the host's secret store; kept verbatim, never inspected. */
  datatype Secret = Secret(stored: Option<string>)

  /** The fields of the property, each assigned once by the constructor. */
  datatype Property = Property(
    url: Option<string>,
    userId: Option<string>,
    password: Secret,
    apiKey: Secret)

  /** `StringUtils.isNotEmpty`: neither null nor the empty string. */
  predicate IsNotEmpty(s: Option<string>): (r: bool)
    ensures r <==> s != None && s != Some("")
  {
    s.Some? && |s.value| > 0
  }

  /** A URL as the constructor stores it: non-empty, and either a project URL or ending in `/`. */
  predicate NormalForm(u: string)
  {
    |u| > 0 && (Contains(u, ProjectsSegment) || EndsWith(u, "/"))
  }

  /** Every property the constructor builds satisfies this. */
  predicate Valid(p: Property)
  {
    p.url.Some? ==> NormalForm(p.url.value)
  }

  /**
   * The constructor's normalisation: absent stays absent, a project URL or a
   * URL ending in `/` is kept, any other URL gets one `/` appended.
   */
  function Normalize(url: Option<string>): (r: Option<string>)
    ensures r.None? <==> !IsNotEmpty(url)
    ensures r.Some? ==> NormalForm(r.value)
    ensures r.Some? ==> url.value <= r.value && |r.value| <= |url.value| + 1
  {
    if IsNotEmpty(url) then
      var u := url.value;
      if Contains(u, ProjectsSegment) then Some(u)
      else if EndsWith(u, "/") then Some(u)
      else Some(u + "/")
    else None
  }

  /** The constructor: normalises the URL and stores everything else verbatim. */
  function New(url: Option<string>, userId: Option<string>, password: Option<string>, apiKey: Option<string>): (p: Property)
    ensures Valid(p)
    ensures p.url == Normalize(url)
    ensures p.userId == userId && p.password == Secret(password) && p.apiKey == Secret(apiKey)
  {
    Property(Normalize(url), userId, Secret(password), Secret(apiKey))
  }

  /**
   * `getSpaceURL`: the stored URL cut just after the slash that starts the
   * first `/projects/`, or the whole stored URL when there is none.
   */
  function SpaceURL(p: Property): (r: Option<string>)
    ensures r.None? <==> p.url.None?
    ensures r.Some? ==> r.value <= p.url.value
  {
    match p.url
    case None => None
    case Some(u) =>
      if Contains(u, ProjectsSegment) then Some(u[..IndexOf(u, ProjectsSegment).value + 1])
      else Some(u)
  }

  /** `getProject`: what follows the first `/projects/` of the stored URL, if any. */
  function Project(p: Property): (r: Option<string>)
    ensures r.Some? <==> p.url.Some? && Contains(p.url.value, ProjectsSegment)
    ensures r.Some? ==> |r.value| + |ProjectsSegment| <= |p.url.value|
    ensures r.Some? ==> r.value == p.url.value[|p.url.value| - |r.value|..]
  {
    match p.url
    case None => None
    case Some(u) =>
      if !Contains(u, ProjectsSegment) then None
      else Some(u[IndexOf(u, ProjectsSegment).value + |ProjectsSegment|..])
  }

  // Normalisation

  /** A null or empty URL is stored as absent, and neither derived value exists. */
  lemma AbsentUrl(url: Option<string>, userId: Option<string>, password: Option<string>, apiKey: Option<string>)
    requires url.None? || url.value == ""
    ensures New(url, userId, password, apiKey).url.None?
    ensures SpaceURL(New(url, userId, password, apiKey)).None?
    ensures Project(New(url, userId, password, apiKey)).None?
  {
  }

  /** A non-empty URL that contains `/projects/` or ends with `/` is stored unchanged. */
  lemma NormalizeKeeps(u: string)
    requires |u| > 0
    requires Contains(u, ProjectsSegment) || EndsWith(u, "/")
    ensures Normalize(Some(u)) == Some(u)
  {
  }

  /** Any other non-empty URL is stored with exactly one `/` appended. */
  lemma NormalizeAppends(u: string)
    requires |u| > 0
    requires !Contains(u, ProjectsSegment) && !EndsWith(u, "/")
    ensures Normalize(Some(u)) == Some(u + "/")
  {
  }

  /** Normalising a stored URL again changes nothing. */
  lemma NormalizeIdempotent(url: Option<string>)
    ensures Normalize(Normalize(url)) == Normalize(url)
  {
  }

  // Decomposition of the stored URL

  /** The space URL of a constructed property with a URL ends in `/`. */
  lemma SpaceURLEndsWithSlash(p: Property)
    requires Valid(p) && p.url.Some?
    ensures EndsWith(SpaceURL(p).value, "/")
  {
    var u := p.url.value;
    if Contains(u, ProjectsSegment) {
      var i := IndexOf(u, ProjectsSegment).value;
      assert u[i] == u[i..i + |ProjectsSegment|][0];
    }
  }

  /** Without `/projects/` the space URL is the whole stored URL and there is no project. */
  lemma NoSegmentWholeURL(p: Property)
    requires p.url.Some? && !Contains(p.url.value, ProjectsSegment)
    ensures SpaceURL(p) == p.url
    ensures Project(p) == None
  {
  }

  /**
   * Both derived values are cut at the FIRST `/projects/`: the slash that
   * ends the space URL starts an occurrence, and no occurrence starts earlier.
   */
  lemma SplitAtFirstOccurrence(p: Property)
    requires Project(p).Some?
    ensures |SpaceURL(p).value| > 0
    ensures OccursAt(p.url.value, ProjectsSegment, |SpaceURL(p).value| - 1)
    ensures forall j: nat :: j < |SpaceURL(p).value| - 1 ==> !OccursAt(p.url.value, ProjectsSegment, j)
    ensures |SpaceURL(p).value| - 1 + |ProjectsSegment| + |Project(p).value| == |p.url.value|
  {
  }

  /** The space URL, `projects/` and the project key put back together give the stored URL. */
  lemma SplitRoundTrip(p: Property)
    requires Project(p).Some?
    ensures SpaceURL(p).value + "projects/" + Project(p).value == p.url.value
  {
    var u := p.url.value;
    var i := IndexOf(u, ProjectsSegment).value;
    calc {
      SpaceURL(p).value + "projects/" + Project(p).value;
      u[..i + 1] + u[i + 1..i + |ProjectsSegment|] + u[i + |ProjectsSegment|..];
      u;
    }
  }

  /** A stored URL whose first `/projects/` closes it has the empty project key, not an absent one. */
  lemma EmptyProjectKey(p: Property)
    requires p.url.Some? && EndsWith(p.url.value, ProjectsSegment)
    requires forall j: nat :: j + |ProjectsSegment| < |p.url.value| ==> !OccursAt(p.url.value, ProjectsSegment, j)
    ensures Project(p) == Some("")
  {
    var u := p.url.value;
    IndexOfFirst(u, ProjectsSegment, |u| - |ProjectsSegment|);
  }

  /**
   * A space URL without the segment, followed by `/projects/` and a key, is
   * stored as is and splits back into the space URL with its slash and the key.
   */
  lemma ComposedProjectURL(space: string, key: string)
    requires NoSegmentBefore(space + ProjectsSegment + key, |space|)
    ensures New(Some(space + ProjectsSegment + key), None, None, None).url == Some(space + ProjectsSegment + key)
    ensures SpaceURL(New(Some(space + ProjectsSegment + key), None, None, None)) == Some(space + "/")
    ensures Project(New(Some(space + ProjectsSegment + key), None, None, None)) == Some(key)
  {
    var u := space + ProjectsSegment + key;
    assert u[|space|..|space| + |ProjectsSegment|] == ProjectsSegment;
    IndexOfFirst(u, ProjectsSegment, |space|);
    assert u[..|space| + 1] == space + "/";
    assert u[|space| + |ProjectsSegment|..] == key;
  }

  /**
   * A space URL that neither contains the segment nor ends in `/` is stored
   * with a `/` appended, is its own space URL and has no project.
   */
  lemma ComposedSpaceURL(space: string)
    requires |space| > 0 && space[|space| - 1] != '/'
    requires NoSegmentBefore(space + "/", |space|)
    ensures New(Some(space), None, None, None).url == Some(space + "/")
    ensures SpaceURL(New(Some(space), None, None, None)) == Some(space + "/")
    ensures Project(New(Some(space), None, None, None)) == None
  {
    var u := space + "/";
    forall j: nat | j + |ProjectsSegment| <= |space| ensures !OccursAt(space, ProjectsSegment, j) {
      assert u[j..j + |ProjectsSegment|] == space[j..j + |ProjectsSegment|];
      assert !OccursAt(u, ProjectsSegment, j);
    }
    NotContains(space, ProjectsSegment);
    NotContains(u, ProjectsSegment);
  }

  /** No position of `s` before `n` starts `/projects/`. */
  predicate NoSegmentBefore(s: string, n: nat)
  {
    forall j: nat :: j < n && j + |ProjectsSegment| <= |s| ==> !OccursAt(s, ProjectsSegment, j)
  }

  // Examples

  /** The URL of a Backlog space, without a trailing slash. */
  const ExampleSpace: string := "https://example.backlog.jp"

  /** The example space contains no `/projects/`, whatever follows it. */
  lemma ExampleSpaceHasNoSegment(rest: string)
    ensures NoSegmentBefore(ExampleSpace + rest, |ExampleSpace|)
  {
    var u := ExampleSpace + rest;
    forall j: nat | j < |ExampleSpace| && j + |ProjectsSegment| <= |u| ensures !OccursAt(u, ProjectsSegment, j) {
      assert u[j..j + |ProjectsSegment|][0] == u[j] && u[j..j + |ProjectsSegment|][1] == u[j + 1];
    }
  }

  /** A space URL without a trailing slash gets one and has no project. */
  lemma SpaceOnlyExample()
    ensures New(Some(ExampleSpace), None, None, None).url == Some(ExampleSpace + "/")
    ensures SpaceURL(New(Some(ExampleSpace), None, None, None)) == Some(ExampleSpace + "/")
    ensures Project(New(Some(ExampleSpace), None, None, None)) == None
  {
    ExampleSpaceHasNoSegment("/");
    ComposedSpaceURL(ExampleSpace);
  }

  /** A project URL is kept and split into its space URL and project key. */
  lemma ProjectExample()
    ensures New(Some(ExampleSpace + ProjectsSegment + "ABC"), None, None, None).url == Some(ExampleSpace + ProjectsSegment + "ABC")
    ensures SpaceURL(New(Some(ExampleSpace + ProjectsSegment + "ABC"), None, None, None)) == Some(ExampleSpace + "/")
    ensures Project(New(Some(ExampleSpace + ProjectsSegment + "ABC"), None, None, None)) == Some("ABC")
  {
    ExampleSpaceHasNoSegment(ProjectsSegment + "ABC");
    assert ExampleSpace + (ProjectsSegment + "ABC") == ExampleSpace + ProjectsSegment + "ABC";
    ComposedProjectURL(ExampleSpace, "ABC");
  }

  /** A URL ending in `/projects/` has the empty project key, not an absent one. */
  lemma EmptyKeyExample()
    ensures New(Some(ExampleSpace + ProjectsSegment), None, None, None).url == Some(ExampleSpace + ProjectsSegment)
    ensures Project(New(Some(ExampleSpace + ProjectsSegment), None, None, None)) == Some("")
  {
    ExampleSpaceHasNoSegment(ProjectsSegment + "");
    assert ExampleSpace + (ProjectsSegment + "") == ExampleSpace + ProjectsSegment + "" == ExampleSpace + ProjectsSegment;
    ComposedProjectURL(ExampleSpace, "");
  }

  /**
   * A URL ending in `/projects` lacks the segment, so normalisation appends
   * the `/` that completes it: the stored URL then names a project with the
   * empty key.
   */
  lemma AppendCompletesSegmentExample()
    ensures New(Some(ExampleSpace + "/projects"), None, None, None).url == Some(ExampleSpace + ProjectsSegment)
    ensures SpaceURL(New(Some(ExampleSpace + "/projects"), None, None, None)) == Some(ExampleSpace + "/")
    ensures Project(New(Some(ExampleSpace + "/projects"), None, None, None)) == Some("")
  {
    var u := ExampleSpace + "/projects";
    ExampleSpaceHasNoSegment("/projects");
    forall j: nat | j + |ProjectsSegment| <= |u| ensures !OccursAt(u, ProjectsSegment, j) {
    }
    NotContains(u, ProjectsSegment);
    assert u[|u| - 1..] == "s";
    assert u + "/" == ExampleSpace + ProjectsSegment + "" == ExampleSpace + ProjectsSegment;
    ExampleSpaceHasNoSegment(ProjectsSegment + "");
    assert ExampleSpace + (ProjectsSegment + "") == ExampleSpace + ProjectsSegment + "";
    ComposedProjectURL(ExampleSpace, "");
  }
}

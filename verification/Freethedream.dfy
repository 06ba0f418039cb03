/** The open map's documents and the view of them that one person may see. */
module Freethedream {
  import opened Options

  /** A suggestion: a project, or something that is not a hash.  `details` stands for its
      remaining fields. */
  datatype Drop =
    | Stray(raw: string)
    | Drop(id: string, open: bool, runners: seq<string>, dismissed: Option<seq<string>>, details: string)

  /** A person's document; `other` stands for fields nobody else is shown. */
  datatype Document = Document(
    drops: seq<Drop>, follows: Option<seq<string>>, claims: seq<string>,
    edits: Option<map<string, string>>, logos: Option<map<string, string>>, other: Option<string>)

  /** All documents in order, each under its owner's account id. */
  type Documents = seq<(string, Document)>

  datatype Project = Project(creator: string, open: bool, runners: seq<string>)

  function ProjectKey(uid: string, id: string): string {
    uid + ['~'] + id
  }

  /** The projects of one person's drops, added to those known; a later key wins. */
  function AddProjects(projects: map<string, Project>, uid: string, drops: seq<Drop>): map<string, Project>
    decreases |drops|
  {
    if drops == [] then projects
    else if drops[0].Stray? then AddProjects(projects, uid, drops[1..])
    else
      var project := Project(uid, drops[0].open, drops[0].runners);
      AddProjects(projects[ProjectKey(uid, drops[0].id) := project], uid, drops[1..])
  }

  function ProjectsFrom(projects: map<string, Project>, docs: Documents): map<string, Project>
    decreases |docs|
  {
    if docs == [] then projects
    else ProjectsFrom(AddProjects(projects, docs[0].0, docs[0].1.drops), docs[1..])
  }

  function ClaimsOf(docs: Documents, uid: string): seq<string>
    decreases |docs|
  {
    if docs == [] then [] else if docs[0].0 == uid then docs[0].1.claims else ClaimsOf(docs[1..], uid)
  }

  /** Whether a person runs a project: its creator, an accepted runner, or for an open project
      anyone who claims it. */
  predicate Runs(projects: map<string, Project>, docs: Documents, uid: string, key: string) {
    key in projects &&
    (projects[key].creator == uid || uid in projects[key].runners || (projects[key].open && key in ClaimsOf(docs, uid)))
  }

  // ----- The view

  function ShownDrop(d: Drop, own: bool): Drop {
    if d.Drop? && !own then d.(dismissed := None) else d
  }

  function ShownDrops(drops: seq<Drop>, own: bool): seq<Drop>
    decreases |drops|
  {
    if drops == [] then [] else [ShownDrop(drops[0], own)] + ShownDrops(drops[1..], own)
  }

  predicate ClaimShown(projects: map<string, Project>, uid: string, viewer: string, key: string) {
    uid == viewer || (key in projects && (projects[key].open || projects[key].creator == viewer))
  }

  function ShownClaims(projects: map<string, Project>, uid: string, viewer: string, claims: seq<string>):
    (r: seq<string>)
    ensures forall k :: k in r <==> k in claims && ClaimShown(projects, uid, viewer, k)
    decreases |claims|
  {
    if claims == [] then []
    else
      assert forall k :: k in claims <==> k == claims[0] || k in claims[1..];
      var rest := ShownClaims(projects, uid, viewer, claims[1..]);
      if ClaimShown(projects, uid, viewer, claims[0]) then [claims[0]] + rest else rest
  }

  /** Only the entries about projects the person runs. */
  function ShownField(projects: map<string, Project>, docs: Documents, uid: string, field: Option<map<string, string>>):
    Option<map<string, string>>
  {
    match field
    case None => None
    case Some(entries) => Some(map k | k in entries && Runs(projects, docs, uid, k) :: entries[k])
  }

  function ShownDocument(projects: map<string, Project>, docs: Documents, viewer: string, uid: string,
                         doc: Document): Document
  {
    Document(
      ShownDrops(doc.drops, uid == viewer), doc.follows, ShownClaims(projects, uid, viewer, doc.claims),
      ShownField(projects, docs, uid, doc.edits), ShownField(projects, docs, uid, doc.logos), None)
  }

  function ShownFrom(projects: map<string, Project>, docs: Documents, viewer: string, rest: Documents): Documents
    decreases |rest|
  {
    if rest == [] then []
    else [(rest[0].0, ShownDocument(projects, docs, viewer, rest[0].0, rest[0].1))]
         + ShownFrom(projects, docs, viewer, rest[1..])
  }

  function ViewFor(docs: Documents, viewer: string): Documents {
    ShownFrom(ProjectsFrom(map[], docs), docs, viewer, docs)
  }

  /** The two loops of `view_for`: collect the projects, then show each document. */
  method View(docs: Documents, viewer: string) returns (views: Documents)
    ensures views == ViewFor(docs, viewer)
  {
    var projects: map<string, Project> := map[];
    var i := 0;
    while i < |docs|
      invariant 0 <= i <= |docs|
      invariant ProjectsFrom(projects, docs[i..]) == ProjectsFrom(map[], docs)
    {
      assert docs[i..][0] == docs[i] && docs[i..][1..] == docs[i + 1..];
      projects := CollectProjects(projects, docs[i].0, docs[i].1.drops);
      i := i + 1;
    }
    views := [];
    i := 0;
    while i < |docs|
      invariant 0 <= i <= |docs|
      invariant views + ShownFrom(projects, docs, viewer, docs[i..]) == ViewFor(docs, viewer)
    {
      assert docs[i..][0] == docs[i] && docs[i..][1..] == docs[i + 1..];
      views := views + [(docs[i].0, ShownDocument(projects, docs, viewer, docs[i].0, docs[i].1))];
      i := i + 1;
    }
  }

  method CollectProjects(known: map<string, Project>, uid: string, drops: seq<Drop>)
    returns (projects: map<string, Project>)
    ensures projects == AddProjects(known, uid, drops)
  {
    projects := known;
    var i := 0;
    while i < |drops|
      invariant 0 <= i <= |drops|
      invariant AddProjects(projects, uid, drops[i..]) == AddProjects(known, uid, drops)
    {
      assert drops[i..][0] == drops[i] && drops[i..][1..] == drops[i + 1..];
      if drops[i].Drop? {
        projects := projects[ProjectKey(uid, drops[i].id) := Project(uid, drops[i].open, drops[i].runners)];
      }
      i := i + 1;
    }
  }

  // ----- Viewing what one was shown changes nothing

  lemma {:induction false} ShownDropsSameProjects(known: map<string, Project>, uid: string, drops: seq<Drop>, own: bool)
    ensures AddProjects(known, uid, ShownDrops(drops, own)) == AddProjects(known, uid, drops)
    ensures ShownDrops(ShownDrops(drops, own), own) == ShownDrops(drops, own)
    decreases |drops|
  {
    if drops != [] {
      var shown := ShownDrops(drops, own);
      assert shown[0] == ShownDrop(drops[0], own) && shown[1..] == ShownDrops(drops[1..], own);
      var next := if drops[0].Stray? then known
                  else known[ProjectKey(uid, drops[0].id) := Project(uid, drops[0].open, drops[0].runners)];
      ShownDropsSameProjects(next, uid, drops[1..], own);
    }
  }

  lemma {:induction false} ViewSameProjects(known: map<string, Project>, projects: map<string, Project>,
                                            docs: Documents,
                                            viewer: string, rest: Documents)
    ensures ProjectsFrom(known, ShownFrom(projects, docs, viewer, rest)) == ProjectsFrom(known, rest)
    decreases |rest|
  {
    if rest != [] {
      var shown := ShownFrom(projects, docs, viewer, rest);
      var (uid, doc) := rest[0];
      assert shown[0] == (uid, ShownDocument(projects, docs, viewer, uid, doc));
      assert shown[1..] == ShownFrom(projects, docs, viewer, rest[1..]);
      ShownDropsSameProjects(known, uid, doc.drops, uid == viewer);
      ViewSameProjects(AddProjects(known, uid, doc.drops), projects, docs, viewer, rest[1..]);
    }
  }

  lemma {:induction false} ShownClaimsOf(projects: map<string, Project>, docs: Documents, viewer: string,
                                         rest: Documents, uid: string)
    ensures ClaimsOf(ShownFrom(projects, docs, viewer, rest), uid)
      == ShownClaims(projects, uid, viewer, ClaimsOf(rest, uid))
    decreases |rest|
  {
    if rest != [] {
      var shown := ShownFrom(projects, docs, viewer, rest);
      assert shown[0] == (rest[0].0, ShownDocument(projects, docs, viewer, rest[0].0, rest[0].1));
      assert shown[1..] == ShownFrom(projects, docs, viewer, rest[1..]);
      ShownClaimsOf(projects, docs, viewer, rest[1..], uid);
    }
  }

  /** Hiding requests to closed projects and other people's dismissals never changes which
      projects there are or who counts as running one. */
  lemma ViewKeepsRunners(docs: Documents, viewer: string, uid: string, key: string)
    ensures var view := ViewFor(docs, viewer);
      && ProjectsFrom(map[], view) == ProjectsFrom(map[], docs)
      && (Runs(ProjectsFrom(map[], view), view, uid, key) <==> Runs(ProjectsFrom(map[], docs), docs, uid, key))
  {
    var projects := ProjectsFrom(map[], docs);
    ViewSameProjects(map[], projects, docs, viewer, docs);
    ShownClaimsOf(projects, docs, viewer, docs, uid);
  }

  lemma {:induction false} ShownClaimsTwice(projects: map<string, Project>, uid: string, viewer: string,
                                            claims: seq<string>)
    ensures var shown := ShownClaims(projects, uid, viewer, claims);
      ShownClaims(projects, uid, viewer, shown) == shown
    decreases |claims|
  {
    if claims != [] {
      ShownClaimsTwice(projects, uid, viewer, claims[1..]);
      var rest := ShownClaims(projects, uid, viewer, claims[1..]);
      if ClaimShown(projects, uid, viewer, claims[0]) {
        assert ([claims[0]] + rest)[1..] == rest;
      }
    }
  }

  lemma ShownFieldTwice(docs: Documents, viewer: string, uid: string, field: Option<map<string, string>>)
    ensures var projects := ProjectsFrom(map[], docs);
      var shown := ShownField(projects, docs, uid, field);
      ShownField(projects, ViewFor(docs, viewer), uid, shown) == shown
  {
    var projects := ProjectsFrom(map[], docs);
    var shown := ShownField(projects, docs, uid, field);
    if shown.Some? {
      forall k | k in shown.value ensures Runs(projects, ViewFor(docs, viewer), uid, k) {
        ViewKeepsRunners(docs, viewer, uid, k);
      }
      var again := map k | k in shown.value && Runs(projects, ViewFor(docs, viewer), uid, k) :: shown.value[k];
      assert again == shown.value;
    }
  }

  lemma {:induction false} ShownTwice(docs: Documents, viewer: string, rest: Documents)
    ensures var projects := ProjectsFrom(map[], docs);
      var shown := ShownFrom(projects, docs, viewer, rest);
      ShownFrom(projects, ViewFor(docs, viewer), viewer, shown) == shown
    decreases |rest|
  {
    if rest != [] {
      var projects := ProjectsFrom(map[], docs);
      var shown := ShownFrom(projects, docs, viewer, rest);
      var (uid, doc) := rest[0];
      assert shown[0] == (uid, ShownDocument(projects, docs, viewer, uid, doc));
      assert shown[1..] == ShownFrom(projects, docs, viewer, rest[1..]);
      ShownDropsSameProjects(map[], uid, doc.drops, uid == viewer);
      ShownClaimsTwice(projects, uid, viewer, doc.claims);
      ShownFieldTwice(docs, viewer, uid, doc.edits);
      ShownFieldTwice(docs, viewer, uid, doc.logos);
      ShownTwice(docs, viewer, rest[1..]);
    }
  }

  /** The view of a view is the view. */
  lemma ViewForIdempotent(docs: Documents, viewer: string)
    ensures ViewFor(ViewFor(docs, viewer), viewer) == ViewFor(docs, viewer)
  {
    ViewSameProjects(map[], ProjectsFrom(map[], docs), docs, viewer, docs);
    ShownTwice(docs, viewer, docs);
  }

  lemma {:induction false} ShownFromAt(projects: map<string, Project>, docs: Documents, viewer: string,
                                       rest: Documents, i: nat)
    requires i < |rest|
    ensures |ShownFrom(projects, docs, viewer, rest)| == |rest|
    ensures ShownFrom(projects, docs, viewer, rest)[i]
      == (rest[i].0, ShownDocument(projects, docs, viewer, rest[i].0, rest[i].1))
    decreases |rest|
  {
    if i > 0 {
      ShownFromAt(projects, docs, viewer, rest[1..], i - 1);
    } else if |rest| > 1 {
      ShownFromAt(projects, docs, viewer, rest[1..], 0);
    } else {
      assert rest[1..] == [];
    }
  }

  lemma {:induction false} ShownDropsAt(drops: seq<Drop>, own: bool, i: nat)
    requires i < |drops|
    ensures |ShownDrops(drops, own)| == |drops| && ShownDrops(drops, own)[i] == ShownDrop(drops[i], own)
    decreases |drops|
  {
    if i > 0 {
      ShownDropsAt(drops[1..], own, i - 1);
    } else if |drops| > 1 {
      ShownDropsAt(drops[1..], own, 0);
    } else {
      assert drops[1..] == [];
    }
  }

  lemma {:induction false} ShownDropsSize(drops: seq<Drop>, own: bool)
    ensures |ShownDrops(drops, own)| == |drops|
    decreases |drops|
  {
    if drops != [] { ShownDropsSize(drops[1..], own); }
  }

  /** Whether `key` is a key of a field that is present. */
  predicate HasEntry(field: Option<map<string, string>>, key: string) {
    field.Some? && key in field.value
  }

  predicate OpenOrCreatedBy(projects: map<string, Project>, key: string, viewer: string) {
    key in projects && (projects[key].open || projects[key].creator == viewer)
  }

  /** What anyone but the owner sees of a document: every claim on an open project or on one the
      viewer created and no other claim, no one's dismissals, and edits and logos only of projects
      that the owner runs, told from the view itself. */
  lemma ViewHidesOthersBusiness(docs: Documents, viewer: string, i: nat, key: string)
    requires i < |docs| && docs[i].0 != viewer
    ensures |ViewFor(docs, viewer)| == |docs|
    ensures var view := ViewFor(docs, viewer); var projects := ProjectsFrom(map[], view);
      var doc, shown := docs[i].1, view[i].1;
      && view[i].0 == docs[i].0
      && (key in shown.claims <==> key in doc.claims && OpenOrCreatedBy(projects, key, viewer))
      && |shown.drops| == |doc.drops|
      && (forall d | 0 <= d < |doc.drops| :: shown.drops[d] ==
            if doc.drops[d].Drop? then doc.drops[d].(dismissed := None) else doc.drops[d])
      && (HasEntry(shown.edits, key) <==> HasEntry(doc.edits, key) && Runs(projects, view, docs[i].0, key))
      && (HasEntry(shown.logos, key) <==> HasEntry(doc.logos, key) && Runs(projects, view, docs[i].0, key))
  {
    var drops := docs[i].1.drops;
    ShownFromAt(ProjectsFrom(map[], docs), docs, viewer, docs, i);
    ShownDropsSize(drops, false);
    forall d | 0 <= d < |drops| ensures ShownDrops(drops, false)[d] == ShownDrop(drops[d], false) {
      ShownDropsAt(drops, false, d);
    }
    ViewKeepsRunners(docs, viewer, docs[i].0, key);
  }

  // ----- What is shown, told from the documents

  /** Every account has one document. */
  predicate DistinctOwners(docs: Documents) {
    forall i, j | 0 <= i < j < |docs| :: docs[i].0 != docs[j].0
  }

  /** The last of a person's drops that goes by the key. */
  function SuggestedBy(uid: string, drops: seq<Drop>, key: string): Option<Project>
    decreases |drops|
  {
    if drops == [] then None
    else if SuggestedBy(uid, drops[1..], key).Some? then SuggestedBy(uid, drops[1..], key)
    else
      match drops[0]
      case Stray(_) => None
      case Drop(id, open, runners, _, _) => if uid + "~" + id == key then Some(Project(uid, open, runners)) else None
  }

  function Suggested(docs: Documents, key: string): Option<Project>
    decreases |docs|
  {
    if docs == [] then None
    else if Suggested(docs[1..], key).Some? then Suggested(docs[1..], key)
    else SuggestedBy(docs[0].0, docs[0].1.drops, key)
  }

  lemma {:induction false} AddedProjects(known: map<string, Project>, uid: string, drops: seq<Drop>, key: string)
    ensures var projects, found := AddProjects(known, uid, drops), SuggestedBy(uid, drops, key);
      && (key in projects <==> key in known || found.Some?)
      && (key in projects ==> projects[key] == if found.Some? then found.value else known[key])
    decreases |drops|
  {
    if drops != [] {
      if drops[0].Drop? {
        var project := Project(uid, drops[0].open, drops[0].runners);
        assert ProjectKey(uid, drops[0].id) == uid + "~" + drops[0].id;
        AddedProjects(known[ProjectKey(uid, drops[0].id) := project], uid, drops[1..], key);
      } else {
        AddedProjects(known, uid, drops[1..], key);
      }
    }
  }

  /** The collected projects are those somebody suggested, as suggested last. */
  lemma {:induction false} CollectedProjects(known: map<string, Project>, docs: Documents, key: string)
    ensures var projects, found := ProjectsFrom(known, docs), Suggested(docs, key);
      && (key in projects <==> key in known || found.Some?)
      && (key in projects ==> projects[key] == if found.Some? then found.value else known[key])
    decreases |docs|
  {
    if docs != [] {
      AddedProjects(known, docs[0].0, docs[0].1.drops, key);
      hide AddProjects, SuggestedBy;
      CollectedProjects(AddProjects(known, docs[0].0, docs[0].1.drops), docs[1..], key);
    }
  }

  /** A request to help is for its author, for the creator of the project, and for everyone if the
      project is open; what nobody suggested has no requests. */
  predicate MaySeeRequest(docs: Documents, viewer: string, owner: string, key: string) {
    owner == viewer ||
    match Suggested(docs, key)
    case None => false
    case Some(project) => project.open || project.creator == viewer
  }

  /** Who runs a project: its creator, whom the creator accepted, and whoever asked if it is open. */
  predicate RunsIt(docs: Documents, owner: string, claims: seq<string>, key: string) {
    match Suggested(docs, key)
    case None => false
    case Some(project) =>
      project.creator == owner || owner in project.runners || (project.open && key in claims)
  }

  /** Entries of a field about projects that the owner runs, with what they say. */
  ghost predicate OnlyRun(docs: Documents, owner: string, claims: seq<string>,
                          field: Option<map<string, string>>, shown: Option<map<string, string>>)
  {
    && (shown.Some? <==> field.Some?)
    && (field.Some? ==> forall key :: key in shown.value <==> key in field.value && RunsIt(docs, owner, claims, key))
    && (field.Some? ==> forall key | key in shown.value :: shown.value[key] == field.value[key])
  }

  lemma {:induction false} OwnClaims(docs: Documents, i: nat)
    requires DistinctOwners(docs) && i < |docs|
    ensures ClaimsOf(docs, docs[i].0) == docs[i].1.claims
    decreases |docs|
  {
    if i > 0 {
      assert forall j, k | 0 <= j < k < |docs[1..]| :: docs[1..][j].0 != docs[1..][k].0;
      OwnClaims(docs[1..], i - 1);
    }
  }

  lemma RunsIff(docs: Documents, i: nat, key: string)
    requires DistinctOwners(docs) && i < |docs|
    ensures Runs(ProjectsFrom(map[], docs), docs, docs[i].0, key) <==> RunsIt(docs, docs[i].0, docs[i].1.claims, key)
  {
    OwnClaims(docs, i);
    CollectedProjects(map[], docs, key);
    hide ProjectsFrom, Suggested, ClaimsOf;
  }

  lemma FieldOnlyRun(docs: Documents, i: nat, field: Option<map<string, string>>)
    requires DistinctOwners(docs) && i < |docs|
    ensures var shown := ShownField(ProjectsFrom(map[], docs), docs, docs[i].0, field);
      OnlyRun(docs, docs[i].0, docs[i].1.claims, field, shown)
  {
    forall key ensures Runs(ProjectsFrom(map[], docs), docs, docs[i].0, key)
      <==> RunsIt(docs, docs[i].0, docs[i].1.claims, key)
    {
      RunsIff(docs, i, key);
    }
    hide Runs, RunsIt, ProjectsFrom;
  }

  /** What anyone, the owner included, sees of a document, told from all documents: the drops, with
      dismissals for the owner only; what the owner follows; the requests that may be seen; edits and
      logos of projects that the owner runs; and nothing else. */
  lemma ViewShows(docs: Documents, viewer: string, i: nat)
    requires DistinctOwners(docs) && i < |docs|
    ensures |ViewFor(docs, viewer)| == |docs| && ViewFor(docs, viewer)[i].0 == docs[i].0
    ensures var (owner, doc) := docs[i]; var shown := ViewFor(docs, viewer)[i].1;
      && shown.follows == doc.follows && shown.other == None
      && |shown.drops| == |doc.drops|
      && (forall d | 0 <= d < |doc.drops| :: shown.drops[d] ==
            if doc.drops[d].Drop? && owner != viewer then doc.drops[d].(dismissed := None) else doc.drops[d])
      && (forall key :: key in shown.claims <==> key in doc.claims && MaySeeRequest(docs, viewer, owner, key))
      && OnlyRun(docs, owner, doc.claims, doc.edits, shown.edits)
      && OnlyRun(docs, owner, doc.claims, doc.logos, shown.logos)
  {
    var (owner, doc) := docs[i];
    var projects := ProjectsFrom(map[], docs);
    ShownFromAt(projects, docs, viewer, docs, i);
    ShownDropsSize(doc.drops, owner == viewer);
    forall d | 0 <= d < |doc.drops|
      ensures ShownDrops(doc.drops, owner == viewer)[d] == ShownDrop(doc.drops[d], owner == viewer)
    {
      ShownDropsAt(doc.drops, owner == viewer, d);
    }
    forall key ensures ClaimShown(projects, owner, viewer, key) <==> MaySeeRequest(docs, viewer, owner, key) {
      CollectedProjects(map[], docs, key);
    }
    FieldOnlyRun(docs, i, doc.edits);
    FieldOnlyRun(docs, i, doc.logos);
    hide OnlyRun, MaySeeRequest, ClaimShown, ProjectsFrom, ShownFrom, ShownDrops, ShownField;
  }

  /** Requests are left out one by one, and those that stay keep their order. */
  lemma {:induction false} ShownClaimsInOrder(projects: map<string, Project>, uid: string, viewer: string,
                                              a: seq<string>, b: seq<string>)
    ensures ShownClaims(projects, uid, viewer, a + b)
      == ShownClaims(projects, uid, viewer, a) + ShownClaims(projects, uid, viewer, b)
    decreases |a|
  {
    hide ClaimShown;
    if a == [] {
      assert a + b == b;
    } else {
      assert (a + b)[0] == a[0] && (a + b)[1..] == a[1..] + b;
      ShownClaimsInOrder(projects, uid, viewer, a[1..], b);
      FirstClaim(projects, uid, viewer, a);
      FirstClaim(projects, uid, viewer, a + b);
      hide ShownClaims;
    }
  }

  lemma FirstClaim(projects: map<string, Project>, uid: string, viewer: string, claims: seq<string>)
    requires claims != []
    ensures ShownClaims(projects, uid, viewer, claims) ==
      (if ClaimShown(projects, uid, viewer, claims[0]) then [claims[0]] else [])
      + ShownClaims(projects, uid, viewer, claims[1..])
  {
    hide ClaimShown;
  }
}

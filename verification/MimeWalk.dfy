/** The two recursive walks over a MIME body structure (src/gmail.rs): the one that lists the
    attachments of a synced message and the one that plans how to fetch its body. */
module MimeWalk {
  import opened Results
  import opened Sorting
  import opened Text
  import opened TransferDecoding

  const MAX_ATTACHMENTS: nat := 20

  /** What one node of the structure says about itself. `fileName` and `typeName` are the
      Content-Disposition "filename" and the Content-Type "name" parameters. */
  datatype Fields = Fields(mainType: string, subtype: string, disposition: Option<string>,
                           fileName: Option<string>, typeName: Option<string>, charset: Option<string>,
                           encoding: TransferEncoding, octets: nat)

  datatype Structure =
    | Leaf(fields: Fields)
    | Message(fields: Fields, body: Structure)
    | Multipart(bodies: seq<Structure>)

  datatype Part = Part(path: seq<nat>, encoding: TransferEncoding, encodedOctets: nat)
  {
    predicate IsValid() {
      path != [] && |path| <= 32 && (forall i | 0 <= i < |path| :: path[i] > 0) && encoding != Unsupported
    }
  }

  datatype Attachment = Attachment(name: string, mainType: string, subtype: string, octets: nat, part: Part)

  datatype TextPlan = TextPlan(part: Part, subtype: string, charset: Option<string>)

  datatype BodyPlan = BodyPlan(plain: Option<TextPlan>, html: Option<TextPlan>, attachments: seq<Attachment>)

  function AttachmentFromLeaf(f: Fields, path: seq<nat>): Option<Attachment> {
    var explicit := f.disposition.Some? && EqualIgnoringCase(f.disposition.value, "attachment");
    if !explicit && f.fileName.None? && f.typeName.None? && EqualIgnoringCase(f.mainType, "text") then None
    else
      var named := if f.fileName.Some? then f.fileName else f.typeName;
      var name := if named.Some? && !IsBlank(named.value) then named.value else "Unnamed attachment";
      Some(Attachment(name, Lower(f.mainType), Lower(f.subtype), f.octets, Part(path, f.encoding, f.octets)))
  }

  predicate Attached(f: Fields) {
    AttachmentFromLeaf(f, []).Some?
  }

  lemma AttachedAnywhere(f: Fields, path: seq<nat>)
    ensures AttachmentFromLeaf(f, path).Some? <==> Attached(f)
  {
  }

  // ----- the structure's leaves in document order -----

  /** A node the walks stop at: its place in the tree (0-based child indices), the path the walks
      give it, and its fields. */
  datatype Visit = Visit(place: seq<nat>, path: seq<nat>, fields: Fields)

  function Visits(s: Structure, place: seq<nat>, path: seq<nat>): seq<Visit>
    decreases s, 1, 0
  {
    match s
    case Leaf(f) => [Visit(place, path, f)]
    case Message(f, body) =>
      if Attached(f) then [Visit(place, path, f)] else Visits(body, place + [0], path + [1])
    case Multipart(bodies) => VisitsFrom(s, 0, place, path)
  }

  function VisitsFrom(s: Structure, i: nat, place: seq<nat>, path: seq<nat>): seq<Visit>
    requires s.Multipart? && i <= |s.bodies|
    decreases s, 0, |s.bodies| - i
  {
    if i == |s.bodies| then []
    else Visits(s.bodies[i], place + [i], path + [i + 1]) + VisitsFrom(s, i + 1, place, path)
  }

  /** Every attachment of the visits, in document order. */
  function Attachments(vs: seq<Visit>): seq<Attachment> {
    if vs == [] then [] else AttachmentsAt(vs[0]) + Attachments(vs[1..])
  }

  function AttachmentsAt(v: Visit): seq<Attachment> {
    match AttachmentFromLeaf(v.fields, v.path)
    case Some(a) => [a]
    case None => []
  }

  function TextOf(v: Visit): TextPlan {
    TextPlan(Part(v.path, v.fields.encoding, v.fields.octets), Lower(v.fields.subtype), v.fields.charset)
  }

  /** A text part of the given subtype that can be fetched. */
  predicate IsText(v: Visit, subtype: string) {
    && !Attached(v.fields)
    && EqualIgnoringCase(v.fields.mainType, "text")
    && EqualIgnoringCase(v.fields.subtype, subtype)
    && TextOf(v).part.IsValid()
  }

  /** The first such part in document order. */
  function FirstText(vs: seq<Visit>, subtype: string): Option<TextPlan> {
    if vs == [] then None
    else if IsText(vs[0], subtype) then Some(TextOf(vs[0]))
    else FirstText(vs[1..], subtype)
  }

  function Or<T>(a: Option<T>, b: Option<T>): Option<T> {
    if a.Some? then a else b
  }

  lemma {:induction false} AttachmentsAppend(a: seq<Visit>, b: seq<Visit>)
    ensures Attachments(a + b) == Attachments(a) + Attachments(b)
  {
    hide AttachmentsAt;
    if a == [] {
      assert a + b == b;
    } else {
      var rest := a[1..] + b;
      AttachmentsAppend(a[1..], b);
      assert (a + b)[1..] == rest && (a + b)[0] == a[0];
      assert Attachments(a + b) == AttachmentsAt(a[0]) + Attachments(rest);
    }
  }

  lemma {:induction false} FirstTextAppend(a: seq<Visit>, b: seq<Visit>, subtype: string)
    ensures FirstText(a + b, subtype) == Or(FirstText(a, subtype), FirstText(b, subtype))
  {
    hide IsText, TextOf;
    if a == [] {
      assert a + b == b;
    } else {
      FirstTextAppend(a[1..], b, subtype);
      assert (a + b)[1..] == a[1..] + b;
    }
  }

  lemma TakeTake<T>(a: seq<T>, b: seq<T>, n: nat)
    ensures Take(Take(a, n) + b, n) == Take(a + b, n)
  {
  }

  /** Collecting from the first visits and then from the rest is collecting from all of them. */
  lemma TakeMore(before: seq<Attachment>, first: seq<Visit>, rest: seq<Visit>)
    ensures Take(Take(before + Attachments(first), MAX_ATTACHMENTS) + Attachments(rest), MAX_ATTACHMENTS)
         == Take(before + Attachments(first + rest), MAX_ATTACHMENTS)
  {
    hide Attachments;
    AttachmentsAppend(first, rest);
    TakeTake(before + Attachments(first), Attachments(rest), MAX_ATTACHMENTS);
    assert before + (Attachments(first) + Attachments(rest)) == before + Attachments(first) + Attachments(rest);
  }

  // ----- the list-sync walk -----

  class AttachmentWalk {
    var path: seq<nat>
    var output: seq<Attachment>

    constructor (path: seq<nat>)
      ensures this.path == path && output == []
    {
      this.path, output := path, [];
    }

    /** Appends the attachments below `structure` up to the limit, and leaves `path` as it found it. */
    method CollectAttachments(structure: Structure, ghost place: seq<nat>)
      requires |output| <= MAX_ATTACHMENTS
      modifies this
      ensures path == old(path)
      ensures output == Take(old(output) + Attachments(Visits(structure, place, old(path))), MAX_ATTACHMENTS)
      decreases structure
    {
      hide AttachmentFromLeaf, Attachments;
      if |output| >= MAX_ATTACHMENTS {
        return;
      }
      match structure {
        case Leaf(fields) =>
          OneVisit(Visit(place, path, fields));
          var value := AttachmentFromLeaf(fields, path);
          if value.Some? {
            output := output + [value.value];
          }
        case Message(fields, body) =>
          OneVisit(Visit(place, path, fields));
          AttachedAnywhere(fields, path);
          var value := AttachmentFromLeaf(fields, path);
          if value.Some? {
            output := output + [value.value];
          } else {
            path := path + [1];
            CollectAttachments(body, place + [0]);
            path := path[..|path| - 1];
          }
        case Multipart(bodies) =>
          ghost var here := path;
          ghost var all := Take(output + Attachments(VisitsFrom(structure, 0, place, here)), MAX_ATTACHMENTS);
          for index := 0 to |bodies|
            invariant path == here && |output| <= MAX_ATTACHMENTS
            invariant Take(output + Attachments(VisitsFrom(structure, index, place, here)), MAX_ATTACHMENTS) == all
          {
            ghost var first := Visits(bodies[index], place + [index], here + [index + 1]);
            ghost var rest := VisitsFrom(structure, index + 1, place, here);
            ghost var before := output;
            path := path + [index + 1];
            CollectAttachments(bodies[index], place + [index]);
            path := path[..|path| - 1];
            TakeMore(before, first, rest);
            if |output| >= MAX_ATTACHMENTS {
              break;
            }
          }
          NoVisits();
          assert output + [] == output;
      }
    }
  }

  lemma NoVisits()
    ensures Attachments([]) == []
  {
  }

  lemma OneVisit(v: Visit)
    ensures Attachments([v]) == AttachmentsAt(v)
    ensures forall subtype :: FirstText([v], subtype) == if IsText(v, subtype) then Some(TextOf(v)) else None
  {
    hide AttachmentsAt, IsText, TextOf;
    assert [v][1..] == [];
  }

  function StartPath(structure: Structure): seq<nat> {
    if structure.Multipart? then [] else [1]
  }

  /** The leaves of a whole message, each with the section path the walks give it. */
  function Parts(structure: Structure): seq<Visit> {
    Visits(structure, [], StartPath(structure))
  }

  datatype AttachmentState = Known(attachments: seq<Attachment>) | Unknown

  /** What list sync stores: the first attachments in document order. */
  method AttachmentStateOf(structure: Option<Structure>) returns (r: AttachmentState)
    ensures structure.None? ==> r == Unknown
    ensures structure.Some? ==> r == Known(Take(Attachments(Parts(structure.value)), MAX_ATTACHMENTS))
  {
    if structure.None? {
      return Unknown;
    }
    var walk := new AttachmentWalk(if structure.value.Multipart? then [] else [1]);
    walk.CollectAttachments(structure.value, []);
    assert [] + Attachments(Parts(structure.value)) == Attachments(Parts(structure.value));
    return Known(walk.output);
  }

  // ----- the body-plan walk -----

  /** A plan completed by what the visits still hold. */
  function Planned(plan: BodyPlan, vs: seq<Visit>): BodyPlan {
    BodyPlan(Or(plan.plain, FirstText(vs, "plain")), Or(plan.html, FirstText(vs, "html")),
             Take(plan.attachments + Attachments(vs), MAX_ATTACHMENTS))
  }

  lemma PlannedAppend(plan: BodyPlan, a: seq<Visit>, b: seq<Visit>)
    ensures Planned(Planned(plan, a), b) == Planned(plan, a + b)
  {
    hide Attachments, FirstText;
    AttachmentsAppend(a, b);
    FirstTextAppend(a, b, "plain");
    FirstTextAppend(a, b, "html");
    TakeTake(plan.attachments + Attachments(a), Attachments(b), MAX_ATTACHMENTS);
    assert plan.attachments + (Attachments(a) + Attachments(b)) == plan.attachments + Attachments(a) + Attachments(b);
  }

  lemma PlannedNothing(plan: BodyPlan)
    requires |plan.attachments| <= MAX_ATTACHMENTS
    ensures Planned(plan, []) == plan
  {
    assert plan.attachments + [] == plan.attachments;
  }

  lemma DistinctSubtypes(f: Fields)
    ensures EqualIgnoringCase(f.subtype, "html") ==> !EqualIgnoringCase(f.subtype, "plain")
  {
    assert Lower("html")[0] == 'h' && Lower("plain")[0] == 'p';
  }

  class BodyPlanWalk {
    var path: seq<nat>
    var plan: BodyPlan

    constructor (path: seq<nat>)
      ensures this.path == path && plan == BodyPlan(None, None, [])
    {
      this.path, plan := path, BodyPlan(None, None, []);
    }

    method CollectBodyPlan(structure: Structure, ghost place: seq<nat>)
      requires |plan.attachments| <= MAX_ATTACHMENTS
      modifies this
      ensures path == old(path)
      ensures plan == Planned(old(plan), Visits(structure, place, old(path)))
      decreases structure
    {
      hide AttachmentFromLeaf, Attachments, FirstText, EqualIgnoringCase, Part.IsValid;
      if |plan.attachments| >= MAX_ATTACHMENTS && plan.plain.Some? && plan.html.Some? {
        return;
      }
      match structure {
        case Leaf(fields) =>
          OneVisit(Visit(place, path, fields));
          AttachedAnywhere(fields, path);
          var attachment := AttachmentFromLeaf(fields, path);
          if attachment.Some? {
            if |plan.attachments| < MAX_ATTACHMENTS {
              plan := plan.(attachments := plan.attachments + [attachment.value]);
            }
            return;
          }
          assert plan.attachments + [] == plan.attachments;
          if !EqualIgnoringCase(fields.mainType, "text") {
            return;
          }
          var descriptor := Part(path, fields.encoding, fields.octets);
          if !descriptor.IsValid() {
            return;
          }
          DistinctSubtypes(fields);
          var value := TextPlan(descriptor, Lower(fields.subtype), fields.charset);
          if EqualIgnoringCase(fields.subtype, "html") {
            plan := plan.(html := Or(plan.html, Some(value)));
          } else if EqualIgnoringCase(fields.subtype, "plain") {
            plan := plan.(plain := Or(plan.plain, Some(value)));
          }
        case Message(fields, body) =>
          OneVisit(Visit(place, path, fields));
          AttachedAnywhere(fields, path);
          var attachment := AttachmentFromLeaf(fields, path);
          if attachment.Some? {
            if |plan.attachments| < MAX_ATTACHMENTS {
              plan := plan.(attachments := plan.attachments + [attachment.value]);
            }
          } else {
            path := path + [1];
            CollectBodyPlan(body, place + [0]);
            path := path[..|path| - 1];
          }
        case Multipart(bodies) =>
          ghost var here := path;
          ghost var all := Planned(plan, VisitsFrom(structure, 0, place, here));
          for index := 0 to |bodies|
            invariant path == here && |plan.attachments| <= MAX_ATTACHMENTS
            invariant Planned(plan, VisitsFrom(structure, index, place, here)) == all
          {
            PlannedAppend(plan, Visits(bodies[index], place + [index], here + [index + 1]),
                          VisitsFrom(structure, index + 1, place, here));
            path := path + [index + 1];
            CollectBodyPlan(bodies[index], place + [index]);
            path := path[..|path| - 1];
          }
          PlannedNothing(plan);
      }
    }
  }

  /** What the body fetch asks for: the first text parts it can fetch, and the same attachments as
      list sync. */
  method BodyPlanOf(structure: Structure) returns (plan: BodyPlan)
    ensures plan == BodyPlan(FirstText(Parts(structure), "plain"), FirstText(Parts(structure), "html"),
                             Take(Attachments(Parts(structure)), MAX_ATTACHMENTS))
  {
    var walk := new BodyPlanWalk(if structure.Multipart? then [] else [1]);
    walk.CollectBodyPlan(structure, []);
    assert [] + Attachments(Parts(structure)) == Attachments(Parts(structure));
    return walk.plan;
  }

  // ----- the section paths -----

  ghost predicate Apart(a: seq<nat>, b: seq<nat>) {
    !(a <= b) && !(b <= a)
  }

  ghost predicate AllApart(vs: seq<Visit>) {
    forall i, j | 0 <= i < j < |vs| :: Apart(vs[i].path, vs[j].path)
  }

  ghost predicate AllUnder(vs: seq<Visit>, path: seq<nat>) {
    forall i | 0 <= i < |vs| :: path <= vs[i].path
  }

  /** No emitted path is a prefix of another. */
  lemma {:induction false} PathsApart(s: Structure, place: seq<nat>, path: seq<nat>)
    ensures AllUnder(Visits(s, place, path), path) && AllApart(Visits(s, place, path))
    decreases s, 1, 0
  {
    match s
    case Leaf(f) =>
    case Message(f, body) => if !Attached(f) { PathsApart(body, place + [0], path + [1]); }
    case Multipart(bodies) => PathsApartFrom(s, 0, place, path);
  }

  lemma {:induction false} PathsApartFrom(s: Structure, i: nat, place: seq<nat>, path: seq<nat>)
    requires s.Multipart? && i <= |s.bodies|
    ensures var vs := VisitsFrom(s, i, place, path);
            && AllUnder(vs, path) && AllApart(vs)
            && forall k | 0 <= k < |vs| :: |path| < |vs[k].path| && vs[k].path[|path|] > i
    decreases s, 0, |s.bodies| - i
  {
    if i < |s.bodies| {
      PathsApart(s.bodies[i], place + [i], path + [i + 1]);
      PathsApartFrom(s, i + 1, place, path);
      var first := Visits(s.bodies[i], place + [i], path + [i + 1]);
      forall k | 0 <= k < |first|
        ensures path <= first[k].path && |path| < |first[k].path| && first[k].path[|path|] == i + 1
      {
        assert path + [i + 1] <= first[k].path;
      }
    }
  }

  lemma AttachmentPath(v: Visit)
    ensures |AttachmentsAt(v)| <= 1 && forall a <- AttachmentsAt(v) :: a.part.path == v.path
  {
  }

  lemma {:induction false} AttachmentComesFrom(vs: seq<Visit>, i: nat) returns (k: nat)
    requires i < |Attachments(vs)|
    ensures k < |vs| && vs[k].path == Attachments(vs)[i].part.path
  {
    hide AttachmentsAt;
    AttachmentPath(vs[0]);
    var n := |AttachmentsAt(vs[0])|;
    k := 0;
    if i >= n {
      k := AttachmentComesFrom(vs[1..], i - n);
      k := k + 1;
    }
  }

  lemma {:induction false} AttachmentsKeepOrder(vs: seq<Visit>, i: nat, j: nat) returns (k: nat, l: nat)
    requires i < j < |Attachments(vs)|
    ensures k < l < |vs|
    ensures vs[k].path == Attachments(vs)[i].part.path && vs[l].path == Attachments(vs)[j].part.path
  {
    hide AttachmentsAt;
    AttachmentPath(vs[0]);
    var n := |AttachmentsAt(vs[0])|;
    if i < n {
      k := 0;
      l := AttachmentComesFrom(vs[1..], j - n);
    } else {
      k, l := AttachmentsKeepOrder(vs[1..], i - n, j - n);
      k := k + 1;
    }
    l := l + 1;
  }

  /** The attachments offered for download have pairwise prefix-free section paths. */
  lemma AttachmentPathsPrefixFree(structure: Structure)
    ensures var all := Take(Attachments(Parts(structure)), MAX_ATTACHMENTS);
            forall i, j | 0 <= i < j < |all| :: Apart(all[i].part.path, all[j].part.path)
  {
    PathsApart(structure, [], StartPath(structure));
    var vs := Parts(structure);
    var all := Take(Attachments(vs), MAX_ATTACHMENTS);
    forall i, j | 0 <= i < j < |all| ensures Apart(all[i].part.path, all[j].part.path) {
      var k, l := AttachmentsKeepOrder(vs, i, j);
    }
  }

  // ----- the numbering of section 6.4.5 of RFC 3501 -----

  /** The place a section number names, read inside the part at `place`. */
  function ResolvePart(p: Structure, place: seq<nat>, section: seq<nat>): Option<seq<nat>>
    decreases p, 0
  {
    if section == [] then Some(place)
    else
      match p
      case Leaf(_) => None
      case Message(_, body) => ResolveMessage(body, place + [0], section)
      case Multipart(bodies) =>
        if 1 <= section[0] <= |bodies| then
          ResolvePart(bodies[section[0] - 1], place + [section[0] - 1], section[1..])
        else None
  }

  /** The parts of a message: those of its multipart body, or the body itself as part 1. */
  function ResolveMessage(body: Structure, place: seq<nat>, section: seq<nat>): Option<seq<nat>>
    requires section != []
    decreases body, 1
  {
    if body.Multipart? then ResolvePart(body, place, section)
    else if section[0] == 1 then ResolvePart(body, place, section[1..])
    else None
  }

  /** A route from a node down to a node that is not a multipart. */
  ghost predicate Route(s: Structure, route: seq<nat>) {
    if route == [] then !s.Multipart?
    else
      match s
      case Leaf(_) => false
      case Message(_, body) => route[0] == 0 && Route(body, route[1..])
      case Multipart(bodies) => route[0] < |bodies| && Route(bodies[route[0]], route[1..])
  }

  /** How often the route passes from an enclosed message into a multipart body. */
  function WrappedMultiparts(s: Structure, route: seq<nat>): nat {
    if route == [] then 0
    else
      match s
      case Leaf(_) => 0
      case Message(_, body) => (if body.Multipart? then 1 else 0) + WrappedMultiparts(body, route[1..])
      case Multipart(bodies) =>
        if route[0] < |bodies| then WrappedMultiparts(bodies[route[0]], route[1..]) else 0
  }

  function Successors(route: seq<nat>): (r: seq<nat>)
    ensures |r| == |route|
  {
    if route == [] then [] else [route[0] + 1] + Successors(route[1..])
  }

  /** The section number of RFC 3501 for the node a route leads to. */
  function RfcSection(s: Structure, route: seq<nat>): seq<nat> {
    if route == [] then []
    else
      match s
      case Leaf(_) => []
      case Message(_, body) => (if body.Multipart? then [] else [1]) + RfcSection(body, route[1..])
      case Multipart(bodies) =>
        if route[0] < |bodies| then [route[0] + 1] + RfcSection(bodies[route[0]], route[1..]) else []
  }

  lemma {:induction false} VisitRoutes(s: Structure, place: seq<nat>, path: seq<nat>, k: nat) returns (route: seq<nat>)
    requires k < |Visits(s, place, path)|
    ensures var v := Visits(s, place, path)[k];
            v.place == place + route && v.path == path + Successors(route) && Route(s, route)
    decreases s, 1, 0
  {
    match s
    case Leaf(f) => route := [];
    case Message(f, body) =>
      route := [];
      if !Attached(f) {
        var rest := VisitRoutes(body, place + [0], path + [1], k);
        route := [0] + rest;
      }
    case Multipart(bodies) => route := VisitRoutesFrom(s, 0, place, path, k);
  }

  lemma {:induction false} VisitRoutesFrom(s: Structure, i: nat, place: seq<nat>, path: seq<nat>, k: nat)
    returns (route: seq<nat>)
    requires s.Multipart? && i <= |s.bodies| && k < |VisitsFrom(s, i, place, path)|
    ensures var v := VisitsFrom(s, i, place, path)[k];
            v.place == place + route && v.path == path + Successors(route) && Route(s, route)
    decreases s, 0, |s.bodies| - i
  {
    var first := Visits(s.bodies[i], place + [i], path + [i + 1]);
    if k < |first| {
      var rest := VisitRoutes(s.bodies[i], place + [i], path + [i + 1], k);
      route := [i] + rest;
    } else {
      route := VisitRoutesFrom(s, i + 1, place, path, k - |first|);
    }
  }

  lemma {:induction false} SectionLength(s: Structure, route: seq<nat>)
    requires Route(s, route)
    ensures |RfcSection(s, route)| == |route| - WrappedMultiparts(s, route)
    ensures WrappedMultiparts(s, route) == 0 ==> RfcSection(s, route) == Successors(route)
  {
    if route != [] {
      match s
      case Message(_, body) => SectionLength(body, route[1..]);
      case Multipart(bodies) => SectionLength(bodies[route[0]], route[1..]);
    }
  }

  lemma {:induction false} SectionResolves(s: Structure, place: seq<nat>, route: seq<nat>)
    requires Route(s, route)
    ensures ResolvePart(s, place, RfcSection(s, route)) == Some(place + route)
  {
    if route != [] {
      match s
      case Message(_, body) =>
        SectionResolves(body, place + [0], route[1..]);
        assert place + [0] + route[1..] == place + route;
        var inner := RfcSection(body, route[1..]);
        if body.Multipart? {
          SectionNotEmpty(body, route[1..]);
          assert RfcSection(s, route) == inner;
        } else {
          assert RfcSection(s, route)[1..] == inner;
        }
      case Multipart(bodies) =>
        SectionResolves(bodies[route[0]], place + [route[0]], route[1..]);
        assert place + [route[0]] + route[1..] == place + route;
        assert RfcSection(s, route)[1..] == RfcSection(bodies[route[0]], route[1..]);
    } else {
      assert place + route == place;
    }
  }

  lemma SectionNotEmpty(s: Structure, route: seq<nat>)
    requires s.Multipart? && Route(s, route)
    ensures RfcSection(s, route) != []
  {
  }

  /** A route leads to the part its section number names, and to no other. */
  ghost predicate LeadsTo(s: Structure, place: seq<nat>, section: seq<nat>, route: seq<nat>) {
    ResolvePart(s, place, section) == Some(place + route) && RfcSection(s, route) == section
  }

  lemma LeadsThroughMessage(s: Structure, place: seq<nat>, section: seq<nat>, rest: seq<nat>)
    requires s.Message? && section != [] && ResolvePart(s, place, section).Some?
    requires LeadsTo(s.body, place + [0], if s.body.Multipart? then section else section[1..], rest)
    ensures LeadsTo(s, place, section, [0] + rest)
  {
    assert place + [0] + rest == place + ([0] + rest) && ([0] + rest)[1..] == rest;
    assert s.body.Multipart? || section == [1] + section[1..];
  }

  lemma LeadsThroughMultipart(s: Structure, place: seq<nat>, section: seq<nat>, rest: seq<nat>)
    requires s.Multipart? && section != [] && ResolvePart(s, place, section).Some?
    requires LeadsTo(s.bodies[section[0] - 1], place + [section[0] - 1], section[1..], rest)
    ensures LeadsTo(s, place, section, [section[0] - 1] + rest)
  {
    var route := [section[0] - 1] + rest;
    assert place + [section[0] - 1] + rest == place + route && route[1..] == rest;
    assert section == [section[0]] + section[1..];
  }

  /** A section number that leads to the route's node is the node's own. */
  lemma {:induction false} ResolvedSection(s: Structure, place: seq<nat>, section: seq<nat>) returns (route: seq<nat>)
    requires ResolvePart(s, place, section).Some?
    ensures LeadsTo(s, place, section, route)
    decreases s
  {
    if section == [] {
      route := [];
      assert place + [] == place;
    } else {
      match s
      case Message(_, body) =>
        var rest := ResolvedSection(body, place + [0], if body.Multipart? then section else section[1..]);
        hide RfcSection;
        LeadsThroughMessage(s, place, section, rest);
        route := [0] + rest;
      case Multipart(bodies) =>
        var rest := ResolvedSection(bodies[section[0] - 1], place + [section[0] - 1], section[1..]);
        hide RfcSection;
        LeadsThroughMultipart(s, place, section, rest);
        route := [section[0] - 1] + rest;
    }
  }

  /** The path of a visited part is its RFC 3501 section number exactly when the way to it does not pass
      through an enclosed message with a multipart body. */
  lemma PathIsSectionNumber(structure: Structure, k: nat) returns (route: seq<nat>)
    requires k < |Parts(structure)|
    ensures route == Parts(structure)[k].place
    ensures var v := Parts(structure)[k];
            v.path != [] &&
            (ResolveMessage(structure, [], v.path) == Some(v.place) <==> WrappedMultiparts(structure, route) == 0)
  {
    route := VisitRoutes(structure, [], StartPath(structure), k);
    var v := Parts(structure)[k];
    assert [] + route == route;
    var inner := Successors(route);
    assert structure.Multipart? ==> v.path == inner;
    assert !structure.Multipart? ==> v.path[1..] == inner;
    SectionLength(structure, route);
    SectionResolves(structure, [], route);
    if ResolvePart(structure, [], inner) == Some(route) {
      var other := ResolvedSection(structure, [], inner);
      assert other == [] + other == route;
    }
  }

  /** The media type of an enclosed message is MESSAGE (`body-type-msg` in section 9 of RFC 3501). */
  predicate MessagesTyped(s: Structure) {
    match s
    case Leaf(_) => true
    case Message(f, body) => EqualIgnoringCase(f.mainType, "MESSAGE") && MessagesTyped(body)
    case Multipart(bodies) => forall b <- bodies :: MessagesTyped(b)
  }

  /** So it is an attachment, and the walks do not look inside it. */
  lemma EnclosedIsAttached(f: Fields)
    requires EqualIgnoringCase(f.mainType, "MESSAGE")
    ensures Attached(f)
  {
    assert Lower("MESSAGE")[0] == 'm' && Lower("text")[0] == 't';
  }

  lemma {:induction false} TypedVisit(s: Structure, place: seq<nat>, path: seq<nat>, k: nat) returns (route: seq<nat>)
    requires MessagesTyped(s) && k < |Visits(s, place, path)|
    ensures Visits(s, place, path)[k].place == place + route && WrappedMultiparts(s, route) == 0
    decreases s, 1, 0
  {
    hide Attached, EqualIgnoringCase;
    match s
    case Leaf(_) =>
      route := [];
      assert place + [] == place;
    case Message(f, _) =>
      EnclosedIsAttached(f);
      route := [];
      assert place + [] == place;
    case Multipart(_) => route := TypedVisitFrom(s, 0, place, path, k);
  }

  lemma {:induction false} TypedVisitFrom(s: Structure, i: nat, place: seq<nat>, path: seq<nat>, k: nat)
    returns (route: seq<nat>)
    requires MessagesTyped(s) && s.Multipart? && i <= |s.bodies| && k < |VisitsFrom(s, i, place, path)|
    ensures VisitsFrom(s, i, place, path)[k].place == place + route && WrappedMultiparts(s, route) == 0
    decreases s, 0, |s.bodies| - i
  {
    hide Attached, EqualIgnoringCase;
    var first := Visits(s.bodies[i], place + [i], path + [i + 1]);
    if k < |first| {
      var rest := TypedVisit(s.bodies[i], place + [i], path + [i + 1], k);
      route := [i] + rest;
      assert place + [i] + rest == place + route && route[1..] == rest;
    } else {
      route := TypedVisitFrom(s, i + 1, place, path, k - |first|);
    }
  }

  /** In every body structure a server can send, forwarded messages included, each emitted path is the
      RFC 3501 section number of its own part. */
  lemma PathsAreSectionNumbers(structure: Structure, k: nat)
    requires MessagesTyped(structure) && k < |Parts(structure)|
    ensures var v := Parts(structure)[k];
            v.path != [] && ResolveMessage(structure, [], v.path) == Some(v.place)
  {
    var route := PathIsSectionNumber(structure, k);
    var other := TypedVisit(structure, [], StartPath(structure), k);
    assert [] + other == other;
  }
}

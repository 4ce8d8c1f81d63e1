/** The authorization vocabulary: roles, permissions, and the textual form of a subject. */
module AuthzModel {
  import opened Common

  type Relation = string
  type Permission = string

  const RELATION_MEMBER: Relation := "member"

  /** Most privileged first. */
  const BUILTIN_ROLES: seq<Relation> := ["admin", "editor", "analyst", "viewer"]

  const ALL_PERMISSIONS: seq<Permission> := [
    "manage_organization", "manage_users", "manage_groups", "manage_roles", "manage_sessions",
    "manage_connections", "create_content", "view_content", "query", "native_query"
  ]

  predicate IsBuiltinRole(r: Relation) {
    r in BUILTIN_ROLES
  }

  predicate KnownPermission(p: Permission) {
    p in ALL_PERMISSIONS
  }

  predicate RoleGrants(role: Relation, p: Permission) {
    if role == "admin" then p in ALL_PERMISSIONS
    else if role == "editor" then p in ["create_content", "view_content", "query"]
    else if role == "analyst" then p in ["create_content", "view_content", "query", "native_query"]
    else role == "viewer" && p in ["view_content", "query"]
  }

  function GrantingAmong(roles: seq<Relation>, p: Permission): (out: seq<Relation>)
    ensures forall r :: r in out <==> r in roles && RoleGrants(r, p)
  {
    if roles == [] then []
    else if RoleGrants(roles[0], p) then [roles[0]] + GrantingAmong(roles[1..], p)
    else GrantingAmong(roles[1..], p)
  }

  /** Every built-in role carrying a permission, most privileged first. */
  function RolesGranting(p: Permission): seq<Relation> {
    GrantingAmong(BUILTIN_ROLES, p)
  }

  /** What a role allows includes what the other does. */
  ghost predicate Includes(wide: Relation, narrow: Relation) {
    forall p :: RoleGrants(narrow, p) ==> RoleGrants(wide, p)
  }

  /** The roles nest, but not as they are listed: an editor comes before an analyst, who may do all an editor may and
      write SQL besides. */
  lemma RolesNest()
    ensures Includes("admin", "analyst") && Includes("analyst", "editor") && Includes("editor", "viewer")
    ensures !Includes("editor", "analyst") && !Includes("viewer", "editor") && !Includes("analyst", "admin")
    ensures BUILTIN_ROLES == ["admin", "editor", "analyst", "viewer"]
  {
    assert RoleGrants("analyst", "native_query") && !RoleGrants("editor", "native_query");
    assert RoleGrants("editor", "create_content") && !RoleGrants("viewer", "create_content");
    assert RoleGrants("admin", "manage_users") && !RoleGrants("analyst", "manage_users");
  }

  /** The granting roles stand in the order of the roles they are taken from. */
  lemma {:induction false} GrantingInOrder(before: seq<Relation>, after: seq<Relation>, p: Permission)
    ensures GrantingAmong(before + after, p) == GrantingAmong(before, p) + GrantingAmong(after, p)
  {
    hide RoleGrants;
    if before == [] {
      assert before + after == after;
    } else {
      GrantingInOrder(before[1..], after, p);
      assert (before + after)[1..] == before[1..] + after;
    }
  }

  /** Before a granting role stand exactly those granting ones that are listed before it. */
  lemma GrantingBefore(p: Permission, via: Relation) returns (k: nat, n: nat)
    requires via in BUILTIN_ROLES && RoleGrants(via, p)
    ensures k < |BUILTIN_ROLES| && BUILTIN_ROLES[k] == via
    ensures n < |RolesGranting(p)| && RolesGranting(p)[n] == via && via !in RolesGranting(p)[..n]
    ensures forall j :: 0 <= j < k && RoleGrants(BUILTIN_ROLES[j], p) ==> BUILTIN_ROLES[j] in RolesGranting(p)[..n]
  {
    hide RoleGrants;
    k := if via == "admin" then 0 else if via == "editor" then 1 else if via == "analyst" then 2 else 3;
    var before, after := BUILTIN_ROLES[..k], BUILTIN_ROLES[k..];
    assert BUILTIN_ROLES == before + after && after[0] == via && via !in before;
    GrantingInOrder(before, after, p);
    n := |GrantingAmong(before, p)|;
    assert RolesGranting(p)[..n] == GrantingAmong(before, p) && GrantingAmong(after, p)[0] == via;
    assert forall j :: 0 <= j < k ==> BUILTIN_ROLES[j] in before;
  }

  /** Only an unregistered permission is granted by nobody. */
  lemma NobodyGrantsOnlyUnknown(p: Permission)
    ensures RolesGranting(p) == [] <==> !KnownPermission(p)
  {
    assert RoleGrants("admin", p) <==> KnownPermission(p);
    assert "admin" in BUILTIN_ROLES;
    if RolesGranting(p) != [] {
      var role := RolesGranting(p)[0];
      assert RoleGrants(role, p);
    }
  }

  datatype Object = Object(objectType: string, id: string)

  datatype Subject = Subject(subjectType: string, id: string, relation: Relation) {
    predicate IsUserset() {
      relation != ""
    }

    function Render(): string {
      if IsUserset() then subjectType + ":" + id + "#" + relation else subjectType + ":" + id
    }
  }

  function GroupMembers(id: string): Subject {
    Subject("group", id, RELATION_MEMBER)
  }

  function RenderObject(o: Object): string {
    o.objectType + ":" + o.id
  }

  function ParseObject(s: string): Option<Object> {
    var (typ, id) := Cut(s, ':');
    if id == None || typ == "" || id.value == "" then None else Some(Object(typ, id.value))
  }

  function ParseSubject(s: string): Option<Subject> {
    var (base, relation) := Cut(s, '#');
    var (typ, id) := Cut(base, ':');
    if id == None || typ == "" || id.value == "" then None
    else if relation == None then Some(Subject(typ, id.value, ""))
    else if relation.value == "" then None
    else Some(Subject(typ, id.value, relation.value))
  }

  /** A subject whose parts do not carry the characters the textual form separates them with. */
  predicate PlainSubject(s: Subject) {
    && s.subjectType != "" && s.id != ""
    && ':' !in s.subjectType && '#' !in s.subjectType && '#' !in s.id
  }

  /** Parsing a rendered subject gives it back exactly when it is plain. */
  lemma ParseRenderedSubject(s: Subject)
    ensures ParseSubject(s.Render()) == Some(s) <==> PlainSubject(s)
  {
    if PlainSubject(s) {
      ParsePlainSubject(s);
    }
    var (base, relation) := Cut(s.Render(), '#');
    CutWhole(s.Render(), '#');
    CutWhole(base, ':');
    var (typ, id) := Cut(base, ':');
    assert id.Some? ==> base == typ + [':'] + id.value;
    assert id.Some? ==> (forall x :: x in typ ==> x in base) && (forall x :: x in id.value ==> x in base);
  }

  lemma ParsePlainSubject(s: Subject)
    requires PlainSubject(s)
    ensures ParseSubject(s.Render()) == Some(s)
  {
    var base := s.subjectType + [':'] + s.id;
    CutAt(s.subjectType, ':', s.id);
    CutAt(base, '#', s.relation);
    assert s.IsUserset() ==> s.Render() == base + ['#'] + s.relation;
    assert !s.IsUserset() ==> s.Render() == base;
  }

  /** And a rendered object exactly when it has a type without a colon, and an id. */
  lemma ParseRenderedObject(o: Object)
    ensures ParseObject(RenderObject(o)) == Some(o) <==> o.objectType != "" && o.id != "" && ':' !in o.objectType
  {
    if ':' !in o.objectType {
      CutAt(o.objectType, ':', o.id);
      assert RenderObject(o) == o.objectType + [':'] + o.id;
    }
    CutWhole(RenderObject(o), ':');
  }

  lemma RenderInjective(a: Subject, b: Subject)
    requires PlainSubject(a) && PlainSubject(b) && a.Render() == b.Render()
    ensures a == b
  {
    ParseRenderedSubject(a);
    ParseRenderedSubject(b);
  }

  datatype Request = Request(subject: Subject, permission: Permission, target: Object) {
    /** The decision cache's key: object#permission@subject. */
    function Render(): string {
      RenderObject(target) + "#" + permission + "@" + subject.Render()
    }
  }

  /** Types and permissions come from the constants; ids hold none of the separators. */
  predicate PlainRequest(r: Request) {
    && PlainSubject(r.subject)
    && r.target.objectType != "" && ':' !in r.target.objectType && '#' !in r.target.objectType
    && r.target.id != "" && '#' !in r.target.id
    && '@' !in r.permission
  }

  /** Two plain requests share a decision-cache key only when they ask the same question. */
  lemma RequestRenderInjective(a: Request, b: Request)
    requires PlainRequest(a) && PlainRequest(b) && a.Render() == b.Render()
    ensures a == b
  {
    forall r: Request | PlainRequest(r)
      ensures Cut(r.Render(), '#') == (RenderObject(r.target), Some(r.permission + ['@'] + r.subject.Render()))
      ensures Cut(r.permission + ['@'] + r.subject.Render(), '@') == (r.permission, Some(r.subject.Render()))
      ensures Cut(RenderObject(r.target), ':') == (r.target.objectType, Some(r.target.id))
    {
      CutAt(r.target.objectType, ':', r.target.id);
      assert RenderObject(r.target) == r.target.objectType + [':'] + r.target.id;
      assert r.Render() == RenderObject(r.target) + ['#'] + (r.permission + ['@'] + r.subject.Render());
      CutAt(RenderObject(r.target), '#', r.permission + ['@'] + r.subject.Render());
      CutAt(r.permission, '@', r.subject.Render());
    }
    RenderInjective(a.subject, b.subject);
  }
}

/** The policy fingerprint: everything about a caller that could change which rows they may see. */
module Policy {
  import opened Common
  import opened AuthzModel
  import opened LengthPrefix
  import opened Sorting

  /** Who is asking. `standing` is what the granter answered; None is a granter that failed. */
  datatype Caller =
    | NoScope
    | System(org: string)
    | Actor(org: string, standing: Option<seq<Relation>>)

  /** An empty sum is a fingerprint that was never resolved. */
  datatype Fingerprint = Fingerprint(sum: string) {
    predicate Resolved() {
      sum != ""
    }
  }

  const VERSION := "policy/v1"

  /** The permissions a set of held relations adds up to; relations that are not roles add nothing. */
  ghost function Held(relations: seq<Relation>): set<Permission> {
    set p | p in ALL_PERMISSIONS && exists r :: r in relations && IsBuiltinRole(r) && RoleGrants(r, p)
  }

  function HeldAmong(permissions: seq<Permission>, relations: seq<Relation>): (out: seq<Permission>)
    ensures forall p :: p in out <==>
      p in permissions && exists r :: r in relations && IsBuiltinRole(r) && RoleGrants(r, p)
  {
    if permissions == [] then []
    else if exists r :: r in relations && IsBuiltinRole(r) && RoleGrants(r, permissions[0])
      then [permissions[0]] + HeldAmong(permissions[1..], relations)
    else HeldAmong(permissions[1..], relations)
  }

  function PermissionsOf(relations: seq<Relation>): seq<Permission> {
    Sorted(HeldAmong(ALL_PERMISSIONS, relations))
  }

  /** The capability list of a set of relations: flattened into a set, listed in whatever order the
      set yields, then sorted. */
  method FlattenPermissions(relations: seq<Relation>) returns (out: seq<Permission>)
    ensures out == PermissionsOf(relations)
    ensures Ascending(out) && (set p | p in out) == Held(relations)
  {
    var held: set<Permission> := {};
    for i := 0 to |relations|
      invariant held == Held(relations[..i])
    {
      assert relations[..i + 1] == relations[..i] + [relations[i]];
      if IsBuiltinRole(relations[i]) {
        held := held + set p | p in ALL_PERMISSIONS && RoleGrants(relations[i], p);
      }
    }
    assert relations[..|relations|] == relations;
    var listed, left := [], held;
    while left != {}
      invariant left <= held && forall p :: p in listed <==> p in held && p !in left
      decreases left
    {
      var p :| p in left;
      listed, left := listed + [p], left - {p};
    }
    out := Sorted(listed);
    SortedSorts(listed);
    SortedDependsOnMembersOnly(listed, HeldAmong(ALL_PERMISSIONS, relations));
  }

  function PreImage(org: string, elements: seq<string>): string {
    VERSION + Parts([org] + elements)
  }

  /** None is the caller whose policy set could not be resolved: nothing of theirs is cached. */
  function Resolve(hash: string -> string, caller: Caller): Option<Fingerprint> {
    match caller
    case NoScope => None
    case System(org) => Some(Fingerprint(hash(PreImage(org, ["system"]))))
    case Actor(org, None) => None
    case Actor(org, Some(relations)) => Some(Fingerprint(hash(PreImage(org, PermissionsOf(relations)))))
  }

  /** Callers nothing about whom could make them see different rows. */
  ghost predicate SameStanding(a: Caller, b: Caller) {
    || (a.System? && b.System? && a.org == b.org)
    || (a.Actor? && b.Actor? && a.org == b.org && a.standing.Some? && b.standing.Some?
        && Held(a.standing.value) == Held(b.standing.value))
  }

  /** Everybody has a fingerprint but a caller nothing is known of, and one whose relations could not be read. */
  lemma ResolvedExactlyWhen(hash: string -> string, caller: Caller)
    ensures Resolve(hash, caller).Some? <==> caller.System? || (caller.Actor? && caller.standing.Some?)
  {
  }

  lemma PermissionsOfIsHeld(relations: seq<Relation>)
    ensures Ascending(PermissionsOf(relations))
    ensures forall p :: p in PermissionsOf(relations) <==> p in Held(relations)
  {
    SortedSorts(HeldAmong(ALL_PERMISSIONS, relations));
  }

  lemma PreImageInjective(org: string, xs: seq<string>, org': string, ys: seq<string>)
    requires PreImage(org, xs) == PreImage(org', ys)
    ensures org == org' && xs == ys
  {
    assert PreImage(org, xs)[|VERSION|..] == Parts([org] + xs);
    assert PreImage(org', ys)[|VERSION|..] == Parts([org'] + ys);
    PartsInjective([org] + xs, [org'] + ys);
    assert ([org] + xs)[1..] == xs && ([org'] + ys)[1..] == ys;
  }

  /** Two resolved callers have one fingerprint exactly when they have the same standing: the order
      and repetition of the relations, and which roles the permissions came from, do not matter, and
      nothing else is forgotten. */
  lemma FingerprintIsStanding(hash: string -> string, a: Caller, b: Caller)
    requires IsHash(hash)
    requires Resolve(hash, a).Some? && Resolve(hash, b).Some?
    ensures Resolve(hash, a) == Resolve(hash, b) <==> SameStanding(a, b)
    ensures Resolve(hash, a).value.Resolved()
  {
    hide PermissionsOf, Ascending;
    var ea := if a.System? then ["system"] else PermissionsOf(a.standing.value);
    var eb := if b.System? then ["system"] else PermissionsOf(b.standing.value);
    if a.Actor? { PermissionsOfIsHeld(a.standing.value); }
    if b.Actor? { PermissionsOfIsHeld(b.standing.value); }
    if Resolve(hash, a) == Resolve(hash, b) {
      PreImageInjective(a.org, ea, b.org, eb);
      assert "system" in ["system"] && "system" !in ALL_PERMISSIONS;
    } else if SameStanding(a, b) && a.Actor? {
      AscendingUnique(ea, eb);
    }
  }
}

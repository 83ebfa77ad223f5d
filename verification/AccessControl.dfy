/** The access decision: four nested loops against one ordering of all possible rule lookups. */
module AccessControl {
  import opened Wrappers

  type Mask = bv32

  /** `Access.Check`: the mask shares a bit with the requested access type. */
  predicate Allows(mask: Mask, accessType: Mask) {
    mask & accessType != 0
  }

  /** A mask of one bit. */
  predicate IsBit(b: Mask) {
    b != 0 && b & (b - 1) == 0
  }

  /** When a check passes, some access bit is set both in the mask and in the requested type. */
  lemma AllowedHasSharedBit(mask: Mask, accessType: Mask) returns (b: Mask)
    requires Allows(mask, accessType)
    ensures IsBit(b) && mask & b == b && accessType & b == b
  {
    var x := mask & accessType;
    b := LowestBit(x);
    BitOfBoth(mask, accessType, x, b);
  }

  /** And with such a bit it passes. */
  lemma SharedBitIsAllowed(mask: Mask, accessType: Mask, b: Mask)
    requires IsBit(b) && mask & b == b && accessType & b == b
    ensures Allows(mask, accessType)
  {
  }

  lemma LowestBit(x: Mask) returns (b: Mask)
    requires x != 0
    ensures IsBit(b) && x & b == b
  {
    b := x & (!x + 1);
    Absorbs(x, !x + 1);
  }

  lemma Absorbs(x: Mask, y: Mask)
    ensures x & (x & y) == x & y
  {
  }

  lemma BitOfBoth(m: Mask, t: Mask, x: Mask, b: Mask)
    requires x == m & t && x & b == b
    ensures m & b == b && t & b == b
  {
  }

  /** What the decision depends on: the resource's paths, the two lookups that may fail, and the subject's roles. */
  datatype Request<!Role> = Request(
    paths: seq<string>,
    tagsOf: string -> Result<seq<string>, string>,
    findRule: (string, string, Role) -> Result<Option<Mask>, string>,
    roles: seq<Role>,
    accessType: Mask)

  /** A possible rule lookup: path, tag level, position among the tags with the empty tag last, role. */
  datatype Probe = Probe(path: int, level: int, tag: int, role: int)

  /** All tag lookups, from the most specific path on, succeed. */
  predicate TagsFound<Role>(r: Request<Role>) {
    forall i :: 0 <= i < |r.paths| ==> r.tagsOf(r.paths[i]).Ok?
  }

  /** The tags tried at a level. */
  function TagsAt<Role>(r: Request<Role>, level: int): seq<string>
    requires TagsFound(r) && 0 <= level < |r.paths|
  {
    r.tagsOf(r.paths[level]).value + [""]
  }

  predicate IsProbe<Role>(r: Request<Role>, p: Probe)
    requires TagsFound(r)
  {
    && 0 <= p.path < |r.paths|
    && 0 <= p.level <= p.path
    && 0 <= p.tag < |TagsAt(r, p.level)|
    && 0 <= p.role < |r.roles|
  }

  function Look<Role>(r: Request<Role>, p: Probe): Result<Option<Mask>, string>
    requires TagsFound(r) && IsProbe(r, p)
  {
    r.findRule(r.paths[p.path], TagsAt(r, p.level)[p.tag], r.roles[p.role])
  }

  /** A lookup that finds no rule and does not fail. */
  predicate Silent<Role>(r: Request<Role>, p: Probe)
    requires TagsFound(r)
  {
    IsProbe(r, p) ==> Look(r, p) == Ok(None)
  }

  /** Most specific path first, then tag levels downwards, then tags in order, then roles in order. */
  predicate Precedes(a: Probe, b: Probe) {
    || a.path > b.path
    || (a.path == b.path && a.level > b.level)
    || (a.path == b.path && a.level == b.level && a.tag < b.tag)
    || (a.path == b.path && a.level == b.level && a.tag == b.tag && a.role < b.role)
  }

  ghost predicate SilentBefore<Role>(r: Request<Role>, p: Probe)
    requires TagsFound(r)
  {
    forall a :: Precedes(a, p) ==> Silent(r, a)
  }

  /** The first lookup that finds a rule or fails. */
  ghost predicate IsFirstHit<Role>(r: Request<Role>, p: Probe)
    requires TagsFound(r)
  {
    IsProbe(r, p) && !Silent(r, p) && SilentBefore(r, p)
  }

  function Verdict<Role>(r: Request<Role>, p: Probe): Result<bool, string>
    requires TagsFound(r) && IsProbe(r, p) && !Silent(r, p)
  {
    match Look(r, p)
    case Err(e) => Err(e)
    case Ok(rule) => Ok(Allows(rule.value, r.accessType))
  }

  /** The answer of the rules: the verdict of the first hit, or the default if every lookup is silent. */
  ghost predicate RuledBy<Role>(r: Request<Role>, byDefault: bool, answer: Result<bool, string>)
    requires TagsFound(r)
  {
    || (exists p :: IsFirstHit(r, p) && answer == Verdict(r, p))
    || ((forall p :: Silent(r, p)) && answer == Ok(byDefault))
  }

  /** A failed tag lookup such that every more specific path's lookup succeeds. */
  ghost predicate IsFirstTagFailure<Role>(r: Request<Role>, i: nat) {
    i < |r.paths| && r.tagsOf(r.paths[i]).Err? && forall k :: i < k < |r.paths| ==> r.tagsOf(r.paths[k]).Ok?
  }

  /** The whole decision, without loops. */
  ghost predicate IsDecision<Role>(r: Request<Role>, ownerGrant: bool, byDefault: bool, answer: Result<bool, string>) {
    if ownerGrant then answer == Ok(true)
    else if TagsFound(r) then RuledBy(r, byDefault, answer)
    else exists i: nat :: IsFirstTagFailure(r, i) && answer == Err(r.tagsOf(r.paths[i]).error)
  }

  /** There is exactly one decision. */
  lemma DecisionIsUnique<Role>(r: Request<Role>, ownerGrant: bool, byDefault: bool, a: Result<bool, string>, b: Result<bool, string>)
    requires IsDecision(r, ownerGrant, byDefault, a) && IsDecision(r, ownerGrant, byDefault, b)
    ensures a == b
  {
    if !ownerGrant && TagsFound(r) {
      if p, q :| IsFirstHit(r, p) && a == Verdict(r, p) && IsFirstHit(r, q) && b == Verdict(r, q) {
        assert Precedes(p, q) || Precedes(q, p) || p == q;
      }
    } else if !ownerGrant {
      var i: nat :| IsFirstTagFailure(r, i) && a == Err(r.tagsOf(r.paths[i]).error);
      var j: nat :| IsFirstTagFailure(r, j) && b == Err(r.tagsOf(r.paths[j]).error);
      assert i == j;
    }
  }

  /** The decision is an error exactly when, without an owner's grant, a tag lookup fails or the first hit is a failed lookup. */
  lemma FailsExactlyWhen<Role>(r: Request<Role>, ownerGrant: bool, byDefault: bool, answer: Result<bool, string>)
    requires IsDecision(r, ownerGrant, byDefault, answer)
    ensures answer.Err? <==>
      !ownerGrant && (!TagsFound(r) || exists p :: IsFirstHit(r, p) && Look(r, p).Err?)
  {
    if !ownerGrant && TagsFound(r) {
      if p :| IsFirstHit(r, p) && Look(r, p).Err? {
        assert IsDecision(r, ownerGrant, byDefault, Verdict(r, p));
        DecisionIsUnique(r, ownerGrant, byDefault, answer, Verdict(r, p));
      }
    }
  }

  /**
   `CheckAccess` equals the owner's grant, else the first rule in the flattened order, else the
   default; it fails exactly when a tag lookup fails or the first hit is a failed rule lookup.
   */
  method CheckAccess<Role>(r: Request<Role>, isOwner: bool, ownerMask: Mask, defaultMask: Mask) returns (answer: Result<bool, string>)
    ensures IsDecision(r, isOwner && Allows(ownerMask, r.accessType), Allows(defaultMask, r.accessType), answer)
  {
    if isOwner {
      if Allows(ownerMask, r.accessType) {
        return Ok(true);
      }
    }
    var allow := Allows(defaultMask, r.accessType);
    var ruleFound := false;

    var tags: map<int, seq<string>> := map[];
    var i := |r.paths| - 1;
    while i >= 0
      invariant -1 <= i < |r.paths|
      invariant forall k :: i < k < |r.paths| ==> r.tagsOf(r.paths[k]).Ok? && k in tags && tags[k] == r.tagsOf(r.paths[k]).value
    {
      var resourceTags := r.tagsOf(r.paths[i]);
      if resourceTags.Err? {
        assert IsFirstTagFailure(r, i);
        return Err(resourceTags.error);
      }
      tags := tags[i := resourceTags.value];
      i := i - 1;
    }

    i := |r.paths| - 1;
    ghost var hit := Probe(0, 0, 0, 0);
    while i >= 0
      invariant -1 <= i < |r.paths| && !ruleFound && allow == Allows(defaultMask, r.accessType)
      invariant forall a: Probe :: a.path > i ==> Silent(r, a)
    {
      var err: Option<string>;
      allow, ruleFound, err, hit := CheckPath(r, tags, i, allow);
      if err.Some? { return Err(err.value); }
      if ruleFound { break; }
      i := i - 1;
    }
    if ruleFound {
      assert IsFirstHit(r, hit) && Ok(allow) == Verdict(r, hit);
    }
    return Ok(allow);
  }

  /** The tag levels of one path, from the path's own level down. */
  method CheckPath<Role>(r: Request<Role>, tags: map<int, seq<string>>, i: int, before: bool)
    returns (allow: bool, ruleFound: bool, err: Option<string>, ghost hit: Probe)
    requires TagsFound(r) && 0 <= i < |r.paths|
    requires forall k :: 0 <= k < |r.paths| ==> k in tags && tags[k] == r.tagsOf(r.paths[k]).value
    requires forall a: Probe :: a.path > i ==> Silent(r, a)
    ensures Outcome(r, before, allow, ruleFound, err, hit)
    ensures !ruleFound && err.None? ==> forall a: Probe :: a.path >= i ==> Silent(r, a)
  {
    allow, ruleFound, err, hit := before, false, None, Probe(0, 0, 0, 0);
    var j := i;
    while j >= 0
      invariant -1 <= j <= i && !ruleFound && err.None? && allow == before
      invariant forall a: Probe :: a.path > i || (a.path == i && a.level > j) ==> Silent(r, a)
    {
      allow, ruleFound, err, hit := CheckLevel(r, tags[j], i, j, allow);
      if err.Some? || ruleFound { return; }
      j := j - 1;
    }
  }

  /** What a loop hands up: nothing found so far, or the first hit and its verdict. */
  ghost predicate Outcome<Role>(r: Request<Role>, before: bool, allow: bool, ruleFound: bool, err: Option<string>, hit: Probe)
    requires TagsFound(r)
  {
    && !(ruleFound && err.Some?)
    && (ruleFound ==> IsFirstHit(r, hit) && Verdict(r, hit) == Ok(allow))
    && (err.Some? ==> IsFirstHit(r, hit) && Verdict(r, hit) == Err(err.value))
    && (!ruleFound && err.None? ==> allow == before)
  }

  /** The tags of one level, the empty tag last, each with every role. */
  method CheckLevel<Role>(r: Request<Role>, levelTags: seq<string>, i: int, j: int, before: bool)
    returns (allow: bool, ruleFound: bool, err: Option<string>, ghost hit: Probe)
    requires TagsFound(r) && 0 <= j <= i < |r.paths| && levelTags == r.tagsOf(r.paths[j]).value
    requires forall a: Probe :: a.path > i || (a.path == i && a.level > j) ==> Silent(r, a)
    ensures Outcome(r, before, allow, ruleFound, err, hit)
    ensures !ruleFound && err.None? ==> forall a: Probe :: a.path > i || (a.path == i && a.level >= j) ==> Silent(r, a)
  {
    allow, ruleFound, err, hit := before, false, None, Probe(0, 0, 0, 0);
    var resourceTags := levelTags + [""];
    var t := 0;
    while t < |resourceTags|
      invariant 0 <= t <= |resourceTags| && !ruleFound && err.None? && allow == before
      invariant SilentBefore(r, Probe(i, j, t, 0))
    {
      var q := 0;
      while q < |r.roles|
        invariant 0 <= q <= |r.roles| && !ruleFound && err.None? && allow == before
        invariant SilentBefore(r, Probe(i, j, t, q))
      {
        var rule := r.findRule(r.paths[i], resourceTags[t], r.roles[q]);
        assert rule == Look(r, Probe(i, j, t, q));
        if rule.Err? {
          hit := Probe(i, j, t, q);
          err := Some(rule.error);
          return;
        }
        if rule.value.Some? {
          ruleFound := true;
          allow := Allows(rule.value.value, r.accessType);
          hit := Probe(i, j, t, q);
          break;
        }
        q := q + 1;
      }
      if ruleFound { break; }
      t := t + 1;
    }
  }
}

/** Permissions, the order between them, and the store of granted ones. */
module Permissions {
  import opened UnixPaths

  datatype Permission =
    | Storage(path: string, write: bool)
    | Network(domains: seq<string>)
    | ActionPopup
    | ArbitraryNetwork
  {
    /** Whether granting `this` also grants `asked`. */
    predicate Allows(asked: Permission) {
      match (this, asked)
      case (Storage(path, write), Storage(askedPath, askedWrite)) =>
        path != "" && StartsWith(askedPath, path) && (write || write == askedWrite)
      case (Network(domains), Network(askedDomains)) => forall d :: d in askedDomains ==> d in domains
      case (ActionPopup, ActionPopup) => true
      case (ArbitraryNetwork, Network(_)) => true
      case (ArbitraryNetwork, ArbitraryNetwork) => true
      case _ => false
    }
  }

  lemma AllowsTransitive(a: Permission, b: Permission, c: Permission)
    requires a.Allows(b) && b.Allows(c)
    ensures a.Allows(c)
  {
  }

  /** A permission covers itself, except for storage below the empty path, which covers nothing. */
  lemma AllowsReflexively(p: Permission)
    ensures p.Allows(p) <==> !(p.Storage? && p.path == "")
    ensures !p.Allows(p) ==> forall asked :: !p.Allows(asked)
  {
  }

  /** Two permissions that cover each other cover the same requests. */
  lemma MutualCoverIsEquivalence(a: Permission, b: Permission, c: Permission)
    requires a.Allows(b) && b.Allows(a)
    ensures a.Allows(c) <==> b.Allows(c)
    ensures c.Allows(a) <==> c.Allows(b)
  {
  }

  /**
   A grant for domains covers a request exactly when it covers each of its domains, and a
   single domain exactly when it is one of the granted; only the grant for any domain covers
   all of them, and a request for any domain at all.
   */
  lemma NetworkByDomain(granted: seq<string>, asked: seq<string>)
    ensures Network(granted).Allows(Network(asked)) <==> forall d :: d in asked ==> Network(granted).Allows(Network([d]))
    ensures forall d :: Network(granted).Allows(Network([d])) <==> d in granted
    ensures ArbitraryNetwork.Allows(Network(asked)) && ArbitraryNetwork.Allows(ArbitraryNetwork)
    ensures !Network(granted).Allows(ArbitraryNetwork)
  {
    forall d
      ensures Network(granted).Allows(Network([d])) <==> d in granted
    {
      assert d in [d];
    }
  }

  /** Permissions of different kinds have nothing to do with one another, the two network kinds apart. */
  lemma KindsStayApart(p: Permission, q: Permission)
    requires p.Allows(q)
    ensures p.Storage? <==> q.Storage?
    ensures p.ActionPopup? <==> q.ActionPopup?
    ensures p.Network? ==> q.Network?
    ensures p.ArbitraryNetwork? <== q.ArbitraryNetwork?
    ensures ActionPopup.Allows(ActionPopup)
  {
  }

  predicate Covers(permissions: seq<Permission>, asked: Permission) {
    exists p :: p in permissions && p.Allows(asked)
  }

  function Granting(permissions: seq<Permission>, p: Permission): seq<Permission> {
    if Covers(permissions, p) then permissions else permissions + [p]
  }

  /** Each entry was worth adding: none is covered by one before it. */
  ghost predicate Irredundant(permissions: seq<Permission>) {
    forall i, j :: 0 <= i < j < |permissions| ==> !permissions[i].Allows(permissions[j])
  }

  /** In such a store only the empty storage path, which covers nothing, can be there twice. */
  lemma OnlyEmptyPathsRepeat(permissions: seq<Permission>, i: nat, j: nat)
    requires Irredundant(permissions) && i < j < |permissions| && permissions[i] == permissions[j]
    ensures permissions[i].Storage? && permissions[i].path == ""
  {
    AllowsReflexively(permissions[i]);
  }

  /** Granting covers exactly what was covered and what `p` allows; redundancy never creeps in. */
  lemma GrantingSpec(permissions: seq<Permission>, p: Permission, asked: Permission)
    ensures Covers(Granting(permissions, p), asked) <==> Covers(permissions, asked) || p.Allows(asked)
    ensures Irredundant(permissions) ==> Irredundant(Granting(permissions, p))
  {
  }

  function GrantingAll(permissions: seq<Permission>, granted: seq<Permission>): seq<Permission> {
    if granted == [] then permissions
    else Granting(GrantingAll(permissions, granted[..|granted| - 1]), granted[|granted| - 1])
  }

  /** After any sequence of grants, exactly what one of them allows is covered. */
  lemma {:induction false} GrantsCompose(granted: seq<Permission>, asked: Permission)
    ensures Covers(GrantingAll([], granted), asked) <==> exists i :: 0 <= i < |granted| && granted[i].Allows(asked)
    ensures Irredundant(GrantingAll([], granted))
  {
    if granted != [] {
      var n := |granted| - 1;
      GrantsCompose(granted[..n], asked);
      GrantingSpec(GrantingAll([], granted[..n]), granted[n], asked);
      assert forall i :: 0 <= i < n ==> granted[..n][i] == granted[i];
    }
  }

  function KeepEqual(permissions: seq<Permission>, p: Permission): seq<Permission> {
    if permissions == [] then []
    else (if permissions[0] == p then [p] else []) + KeepEqual(permissions[1..], p)
  }

  /** What the host said when it was asked: an answer, or no answer at all. */
  datatype Reply = Answered(granted: bool) | Failed

  class PermissionStore {
    var permissions: seq<Permission>

    constructor (loaded: seq<Permission>)
      ensures permissions == loaded
    {
      permissions := loaded;
    }

    predicate HasPermission(asked: Permission)
      reads this
    {
      Covers(permissions, asked)
    }

    /** Records a grant unless it is covered already. */
    method Grant(p: Permission)
      modifies this
      ensures permissions == Granting(old(permissions), p)
      ensures HasPermission(p) <==> !(p.Storage? && p.path == "")
    {
      GrantingSpec(permissions, p, p);
      AllowsReflexively(p);
      if !HasPermission(p) {
        permissions := permissions + [p];
      }
    }

    /** Asks the host unless the request is covered; `reply` is what the host would say. */
    method RequestPermission(p: Permission, reply: Reply) returns (r: Reply, prompted: bool)
      modifies this
      ensures prompted <==> !old(HasPermission(p))
      ensures r == if prompted then reply else Answered(true)
      ensures permissions == if prompted && reply == Answered(true) then old(permissions) + [p] else old(permissions)
    {
      if HasPermission(p) {
        return Answered(true), false;
      }
      prompted, r := true, reply;
      if reply == Answered(true) {
        permissions := permissions + [p];
      }
    }

    /** Keeps the entries equal to `p` and forgets all others. */
    method RemovePermission(p: Permission)
      modifies this
      ensures permissions == KeepEqual(old(permissions), p)
    {
      var kept, i := [], 0;
      while i < |permissions|
        invariant 0 <= i <= |permissions| && permissions == old(permissions)
        invariant kept + KeepEqual(permissions[i..], p) == KeepEqual(permissions, p)
      {
        assert permissions[i..][1..] == permissions[i + 1..];
        assert kept + ([p] + KeepEqual(permissions[i + 1..], p)) == (kept + [p]) + KeepEqual(permissions[i + 1..], p);
        if permissions[i] == p {
          kept := kept + [p];
        }
        i := i + 1;
      }
      permissions := kept;
    }
  }

  /**
   After `RemovePermission(p)` a request is covered exactly when `p` was stored and allows it:
   the call removes every permission other than `p`.
   */
  lemma {:induction false} RemovalKeepsOnlyIt(permissions: seq<Permission>, p: Permission, asked: Permission)
    ensures Covers(KeepEqual(permissions, p), asked) <==> p in permissions && p.Allows(asked)
  {
    if permissions != [] {
      RemovalKeepsOnlyIt(permissions[1..], p, asked);
      var rest := KeepEqual(permissions[1..], p);
      assert forall q :: q in KeepEqual(permissions, p) <==> (q == p && permissions[0] == p) || q in rest;
      assert p in permissions <==> permissions[0] == p || p in permissions[1..];
      if p in permissions && p.Allows(asked) && permissions[0] == p {
        assert p in KeepEqual(permissions, p);
      }
      if Covers(KeepEqual(permissions, p), asked) {
        var q :| q in KeepEqual(permissions, p) && q.Allows(asked);
        if q in rest {
          assert Covers(rest, asked);
        }
      }
      if Covers(rest, asked) {
        var q :| q in rest && q.Allows(asked);
        assert q in KeepEqual(permissions, p);
      }
    }
  }
}

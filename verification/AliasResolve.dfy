/** internal/aliases/aliases.go: resolving an address, against its expansion tree. */
module AliasResolve {
  import opened Text
  import opened Crlf
  import opened AliasClean

  datatype Kind = EMAIL | PIPE | FORWARD
  datatype Recipient = Recipient(addr: string, via: seq<string>, kind: Kind)
  datatype ResolveError = RecursionLimit | LookupFailed

  const RECURSION_LIMIT := 10

  // The alias map, the hook and the user database are fixed during one resolution; the latter two may fail.
  datatype Resolver = Resolver(
    rules: Rules, domains: set<string>, aliases: map<string, seq<Recipient>>,
    hook: string -> Result<seq<Recipient>, ()>,
    userExists: (string, string) -> Result<bool, ()>)

  // ---------------------------------------------------------------- one step

  // lookup: the entry for the address without drop characters, and what the hook adds.
  function Lookup(c: Resolver, addr: string): Result<seq<Recipient>, ResolveError> {
    var key := CleanDrops(c.rules, addr);
    var rcpts := if key in c.aliases then c.aliases[key] else [];
    match c.hook(addr)
    case Err(_) => Err(LookupFailed)
    case Ok(hr) => Ok(rcpts + hr)
  }

  // An address either stands for itself or is replaced by recipients.
  datatype Expansion = Itself(addr: string) | Replaced(rcpts: seq<Recipient>)

  // What a local address without a direct alias becomes.
  function Fallback(c: Resolver, addr: string): Result<Expansion, ResolveError> {
    var (user, domain) := Split(addr);
    var clean := CleanAll(c.rules, addr);
    match Lookup(c, clean)
    case Err(e) => Err(e)
    case Ok(second) =>
      if second != [] then Ok(Replaced(second))
      else
        match c.userExists(user, domain)
        case Err(_) => Err(LookupFailed)
        case Ok(true) => Ok(Itself(clean))
        case Ok(false) =>
          match Lookup(c, "*@" + domain)
          case Err(e) => Err(e)
          case Ok(catchAll) => Ok(if catchAll != [] then Replaced(catchAll) else Itself(clean))
  }

  function Expand(c: Resolver, addr: string): Result<Expansion, ResolveError> {
    if DomainOf(addr) !in c.domains then Ok(Itself(addr))
    else
      match Lookup(c, addr)
      case Err(e) => Err(e)
      case Ok(first) => if first != [] then Ok(Replaced(first)) else Fallback(c, addr)
  }

  // The user "*" on the right stands for the user that is being resolved.
  function Substituted(user: string, r: Recipient): Recipient {
    if r.kind != PIPE && UserOf(r.addr) == "*" then r.(addr := user + "@" + DomainOf(r.addr)) else r
  }

  // ---------------------------------------------------------------- resolution

  // Resolution with n levels left.
  function Resolve(c: Resolver, n: nat, addr: string): Result<seq<Recipient>, ResolveError>
    decreases n, 0
  {
    if n == 0 then Err(RecursionLimit)
    else
      match Expand(c, addr)
      case Err(e) => Err(e)
      case Ok(Itself(a)) => Ok([Recipient(a, [], EMAIL)])
      case Ok(Replaced(rcpts)) => ResolveAll(c, n - 1, UserOf(addr), rcpts)
  }

  function ResolveAll(c: Resolver, n: nat, user: string, rcpts: seq<Recipient>): Result<seq<Recipient>, ResolveError>
    decreases n, |rcpts| + 1
  {
    if rcpts == [] then Ok([])
    else
      match ResolveAll(c, n, user, rcpts[..|rcpts| - 1])
      case Err(e) => Err(e)
      case Ok(done) =>
        match ResolveOne(c, n, Substituted(user, rcpts[|rcpts| - 1]))
        case Err(e) => Err(e)
        case Ok(rs) => Ok(done + rs)
  }

  // Pipes and forwards are kept; addresses are resolved further.
  function ResolveOne(c: Resolver, n: nat, r: Recipient): Result<seq<Recipient>, ResolveError>
    decreases n, 1
  {
    if r.kind == EMAIL then Resolve(c, n, r.addr) else Ok([r])
  }

  lemma {:induction false} ResolveAllErr(c: Resolver, n: nat, user: string, rcpts: seq<Recipient>, i: nat)
    requires i <= |rcpts| && ResolveAll(c, n, user, rcpts[..i]).Err?
    ensures ResolveAll(c, n, user, rcpts) == ResolveAll(c, n, user, rcpts[..i])
    decreases |rcpts|
  {
    var m := |rcpts| - 1;
    if i < |rcpts| {
      assert rcpts[..m][..i] == rcpts[..i];
      ResolveAllErr(c, n, user, rcpts[..m], i);
    } else {
      assert rcpts[..i] == rcpts;
    }
  }

  lemma {:induction false} ResolveAllStep(c: Resolver, n: nat, user: string, rcpts: seq<Recipient>, i: nat,
      done: seq<Recipient>)
    requires i < |rcpts| && ResolveAll(c, n, user, rcpts[..i]) == Ok(done)
    ensures var one := ResolveOne(c, n, Substituted(user, rcpts[i]));
      && (one.Ok? ==> ResolveAll(c, n, user, rcpts[..i + 1]) == Ok(done + one.value))
      && (one.Err? ==> ResolveAll(c, n, user, rcpts) == Err(one.error))
  {
    assert rcpts[..i + 1][..i] == rcpts[..i];
    if ResolveOne(c, n, Substituted(user, rcpts[i])).Err? { ResolveAllErr(c, n, user, rcpts, i + 1); }
  }

  // resolve, up to the recipients that replace the address.
  method Replacements(c: Resolver, addr: string) returns (r: Result<Expansion, ResolveError>)
    ensures r == Expand(c, addr)
  {
    var (user, domain) := Split(addr);
    if domain !in c.domains {
      return Ok(Itself(addr));
    }
    var name, found := addr, Lookup(c, addr);
    if found.Ok? && found.value == [] {
      name := CleanAll(c.rules, addr);
      found := Lookup(c, name);
    }
    if found.Err? {
      return Err(found.error);
    }
    if found.value != [] {
      return Ok(Replaced(found.value));
    }
    var ok := c.userExists(user, domain);
    if ok.Err? {
      return Err(LookupFailed);
    }
    if ok.value {
      return Ok(Itself(name));
    }
    var catchAll := Lookup(c, "*@" + domain);
    if catchAll.Err? {
      return Err(catchAll.error);
    }
    return Ok(if catchAll.value != [] then Replaced(catchAll.value) else Itself(name));
  }

  // resolve, the recursion.
  method ResolveAt(c: Resolver, limit: nat, rcount: nat, addr: string) returns (r: Result<seq<Recipient>, ResolveError>)
    requires rcount <= limit
    ensures r == Resolve(c, limit - rcount, addr)
    decreases limit - rcount, 0
  {
    if rcount >= limit {
      return Err(RecursionLimit);
    }
    var expansion := Replacements(c, addr);
    if expansion.Err? {
      return Err(expansion.error);
    }
    if expansion.value.Itself? {
      return Ok([Recipient(expansion.value.addr, [], EMAIL)]);
    }
    r := ResolveEach(c, limit, rcount + 1, UserOf(addr), expansion.value.rcpts);
  }

  // resolve, the loop that appends to the result.
  method ResolveEach(c: Resolver, limit: nat, rcount: nat, user: string, rcpts: seq<Recipient>)
    returns (r: Result<seq<Recipient>, ResolveError>)
    requires rcount <= limit
    ensures r == ResolveAll(c, limit - rcount, user, rcpts)
    decreases limit - rcount, 1
  {
    var ret: seq<Recipient> := [];
    for i := 0 to |rcpts|
      invariant ResolveAll(c, limit - rcount, user, rcpts[..i]) == Ok(ret)
    {
      ResolveAllStep(c, limit - rcount, user, rcpts, i, ret);
      var r := Substituted(user, rcpts[i]);
      if r.kind != EMAIL {
        ret := ret + [r];
        continue;
      }
      var ar := ResolveAt(c, limit, rcount, r.addr);
      if ar.Err? {
        return ar;
      }
      ret := ret + ar.value;
    }
    assert rcpts[..|rcpts|] == rcpts;
    return Ok(ret);
  }

  // ---------------------------------------------------------------- the expansion tree

  // What an address stands for in the alias file, and then what the hook says.
  predicate Entry(c: Resolver, addr: string, rcpts: seq<Recipient>) {
    var key := CleanDrops(c.rules, addr);
    && c.hook(addr).Ok?
    && rcpts == (if key in c.aliases then c.aliases[key] else []) + c.hook(addr).value
  }

  // A local address without an entry, neither as it is nor cleaned.
  predicate NoEntry(c: Resolver, addr: string) {
    DomainOf(addr) in c.domains && Entry(c, addr, []) && Entry(c, CleanAll(c.rules, addr), [])
  }

  predicate UserIs(c: Resolver, addr: string, known: bool) {
    c.userExists(UserOf(addr), DomainOf(addr)) == Ok(known)
  }

  // A local address is replaced by its own entry; without one by that of its cleaned form; without either, and if there
  // is no such user, by the catch-all of its domain.
  predicate ReplacedBy(c: Resolver, addr: string, rcpts: seq<Recipient>) {
    && DomainOf(addr) in c.domains && rcpts != []
    && (|| Entry(c, addr, rcpts)
        || (Entry(c, addr, []) && Entry(c, CleanAll(c.rules, addr), rcpts))
        || (NoEntry(c, addr) && UserIs(c, addr, false) && Entry(c, "*@" + DomainOf(addr), rcpts)))
  }

  // A foreign address stands for itself, and a local one without an entry for its cleaned form if the user exists or
  // there is no catch-all.
  predicate StaysAs(c: Resolver, addr: string, a: string) {
    || (DomainOf(addr) !in c.domains && a == addr)
    || (&& NoEntry(c, addr) && a == CleanAll(c.rules, addr)
        && (UserIs(c, addr, true) || (UserIs(c, addr, false) && Entry(c, "*@" + DomainOf(addr), []))))
  }

  // On the right, "*" as the user stands for the user being resolved, in addresses and forwards.
  predicate Becomes(user: string, r: Recipient, r': Recipient) {
    && r'.via == r.via && r'.kind == r.kind
    && r'.addr == if r.kind == PIPE || !IsStar(r.addr) then r.addr else user + "@" + DomainOf(r.addr)
  }

  predicate IsStar(addr: string) { addr == "*" || (|addr| >= 2 && addr[0] == '*' && addr[1] == '@') }

  lemma {:induction false} StarMeaning(addr: string)
    ensures UserOf(addr) == "*" <==> IsStar(addr)
  {
    if |addr| >= 2 && addr[0] == '*' && addr[1] == '@' {
      assert addr == "*" + "@" + addr[2..];
      SplitAddress("*", addr[2..]);
    }
    if Cut(addr, '@').Some? { assert addr == UserOf(addr) + "@" + DomainOf(addr); }
  }

  lemma {:induction false} SubstitutedMeaning(user: string, r: Recipient, r': Recipient)
    ensures Substituted(user, r) == r' <==> Becomes(user, r, r')
  {
    StarMeaning(r.addr);
  }

  lemma {:induction false} LookupMeaning(c: Resolver, addr: string, rcpts: seq<Recipient>)
    ensures Lookup(c, addr) == Ok(rcpts) <==> Entry(c, addr, rcpts)
  {}

  lemma {:induction false} ReplacedMeaning(c: Resolver, addr: string, rcpts: seq<Recipient>)
    requires DomainOf(addr) in c.domains && Entry(c, addr, [])
    ensures Fallback(c, addr) == Ok(Replaced(rcpts)) <==> ReplacedBy(c, addr, rcpts)
  {
    var clean, catchAll := CleanAll(c.rules, addr), "*@" + DomainOf(addr);
    LookupMeaning(c, clean, rcpts);
    LookupMeaning(c, clean, []);
    LookupMeaning(c, catchAll, rcpts);
  }

  lemma {:induction false} StaysMeaning(c: Resolver, addr: string, a: string)
    requires DomainOf(addr) in c.domains && Entry(c, addr, [])
    ensures Fallback(c, addr) == Ok(Itself(a)) <==> StaysAs(c, addr, a)
  {
    var clean, catchAll := CleanAll(c.rules, addr), "*@" + DomainOf(addr);
    LookupMeaning(c, clean, []);
    LookupMeaning(c, catchAll, []);
  }

  // One step: what an address is replaced by, or stands for.
  lemma {:induction false} ExpandMeaning(c: Resolver, addr: string, rcpts: seq<Recipient>, a: string)
    ensures Expand(c, addr) == Ok(Replaced(rcpts)) <==> ReplacedBy(c, addr, rcpts)
    ensures Expand(c, addr) == Ok(Itself(a)) <==> StaysAs(c, addr, a)
  {
    if DomainOf(addr) in c.domains && Lookup(c, addr) == Ok([]) {
      ReplacedMeaning(c, addr, rcpts);
      StaysMeaning(c, addr, a);
    }
  }

  datatype Tree = Leaf(r: Recipient) | Node(kids: seq<Tree>)

  function Leaves(t: Tree): seq<Recipient> {
    match t case Leaf(r) => [r] case Node(kids) => LeavesAll(kids)
  }

  function LeavesAll(ts: seq<Tree>): seq<Recipient> {
    if ts == [] then [] else LeavesAll(ts[..|ts| - 1]) + Leaves(ts[|ts| - 1])
  }

  function Max(a: nat, b: nat): nat { if a < b then b else a }

  // Levels of resolution in the tree.
  function Height(t: Tree): nat {
    match t case Leaf(_) => 0 case Node(kids) => 1 + HeightAll(kids)
  }

  function HeightAll(ts: seq<Tree>): nat {
    if ts == [] then 0 else Max(HeightAll(ts[..|ts| - 1]), Height(ts[|ts| - 1]))
  }

  // t is the expansion of addr.
  ghost predicate IsTree(c: Resolver, t: Tree, addr: string)
    decreases t, 0
  {
    && t.Node?
    && (|| (exists a :: StaysAs(c, addr, a) && t.kids == [Leaf(Recipient(a, [], EMAIL))])
        || (exists rcpts :: ReplacedBy(c, addr, rcpts) && AreTrees(c, t.kids, UserOf(addr), rcpts)))
  }

  ghost predicate AreTrees(c: Resolver, ts: seq<Tree>, user: string, rcpts: seq<Recipient>)
    decreases ts
  {
    && |ts| == |rcpts|
    && (ts == [] ||
        var m := |ts| - 1;
        && AreTrees(c, ts[..m], user, rcpts[..m])
        && exists r :: Becomes(user, rcpts[m], r) && IsTreeOf(c, ts[m], r))
  }

  ghost predicate IsTreeOf(c: Resolver, t: Tree, r: Recipient)
    decreases t, 1
  {
    if r.kind == EMAIL then IsTree(c, t, r.addr) else t == Leaf(r)
  }

  // A tree, one level down.
  ghost predicate StepTree(c: Resolver, t: Tree, addr: string) {
    t.Node? && match Expand(c, addr)
      case Err(_) => false
      case Ok(Itself(a)) => t.kids == [Leaf(Recipient(a, [], EMAIL))]
      case Ok(Replaced(rcpts)) => AreTrees(c, t.kids, UserOf(addr), rcpts)
  }

  lemma {:induction false} TreeDown(c: Resolver, t: Tree, addr: string)
    requires IsTree(c, t, addr)
    ensures StepTree(c, t, addr)
  {
    if a :| StaysAs(c, addr, a) && t.kids == [Leaf(Recipient(a, [], EMAIL))] {
      ExpandMeaning(c, addr, [], a);
    } else {
      var rcpts :| ReplacedBy(c, addr, rcpts) && AreTrees(c, t.kids, UserOf(addr), rcpts);
      ExpandMeaning(c, addr, rcpts, "");
    }
  }

  lemma {:induction false} TreeUp(c: Resolver, t: Tree, addr: string)
    requires StepTree(c, t, addr)
    ensures IsTree(c, t, addr)
  {
    var e := Expand(c, addr).value;
    if e.Itself? { ExpandMeaning(c, addr, [], e.addr); } else { ExpandMeaning(c, addr, e.rcpts, ""); }
  }

  lemma {:induction false} TreesDown(c: Resolver, ts: seq<Tree>, user: string, rcpts: seq<Recipient>)
    requires AreTrees(c, ts, user, rcpts) && ts != []
    ensures var m := |ts| - 1;
      AreTrees(c, ts[..m], user, rcpts[..m]) && IsTreeOf(c, ts[m], Substituted(user, rcpts[m]))
  {
    var m := |ts| - 1;
    var r :| Becomes(user, rcpts[m], r) && IsTreeOf(c, ts[m], r);
    SubstitutedMeaning(user, rcpts[m], r);
  }

  lemma {:induction false} TreesSnoc(c: Resolver, ts: seq<Tree>, t: Tree, user: string, rcpts: seq<Recipient>)
    requires |rcpts| == |ts| + 1 && AreTrees(c, ts, user, rcpts[..|ts|])
    requires IsTreeOf(c, t, Substituted(user, rcpts[|ts|]))
    ensures AreTrees(c, ts + [t], user, rcpts)
    ensures LeavesAll(ts + [t]) == LeavesAll(ts) + Leaves(t) && HeightAll(ts + [t]) == Max(HeightAll(ts), Height(t))
  {
    SubstitutedMeaning(user, rcpts[|ts|], Substituted(user, rcpts[|ts|]));
    assert (ts + [t])[..|ts|] == ts;
  }

  // ---------------------------------------------------------------- resolution is the leaves of the tree

  lemma {:induction false} TreeOf(c: Resolver, n: nat, addr: string) returns (t: Tree)
    requires Resolve(c, n, addr).Ok?
    ensures IsTree(c, t, addr) && Height(t) <= n && Leaves(t) == Resolve(c, n, addr).value
    decreases n, 0
  {
    match Expand(c, addr).value
    case Itself(a) =>
      t := Node([Leaf(Recipient(a, [], EMAIL))]);
      TreeUp(c, t, addr);
      OneLeaf(Recipient(a, [], EMAIL));
    case Replaced(rcpts) =>
      var ts := TreesOf(c, n - 1, UserOf(addr), rcpts);
      t := Node(ts);
      TreeUp(c, t, addr);
  }

  lemma {:induction false} TreesOf(c: Resolver, n: nat, user: string, rcpts: seq<Recipient>) returns (ts: seq<Tree>)
    requires ResolveAll(c, n, user, rcpts).Ok?
    ensures AreTrees(c, ts, user, rcpts) && HeightAll(ts) <= n && LeavesAll(ts) == ResolveAll(c, n, user, rcpts).value
    decreases n, |rcpts| + 1
  {
    if rcpts == [] {
      ts := [];
    } else {
      var m := |rcpts| - 1;
      var r := Substituted(user, rcpts[m]);
      var init := TreesOf(c, n, user, rcpts[..m]);
      var t := TreeOfOne(c, n, r);
      ts := init + [t];
      TreesSnoc(c, init, t, user, rcpts);
    }
  }

  lemma {:induction false} TreeOfOne(c: Resolver, n: nat, r: Recipient) returns (t: Tree)
    requires ResolveOne(c, n, r).Ok?
    ensures IsTreeOf(c, t, r) && Height(t) <= n && Leaves(t) == ResolveOne(c, n, r).value
    decreases n, 1
  {
    if r.kind == EMAIL {
      t := TreeOf(c, n, r.addr);
    } else {
      t := Leaf(r);
    }
  }

  lemma {:induction false} ResolveTree(c: Resolver, n: nat, t: Tree, addr: string)
    requires IsTree(c, t, addr) && Height(t) <= n
    ensures Resolve(c, n, addr) == Ok(Leaves(t))
    decreases n, 0
  {
    TreeDown(c, t, addr);
    match Expand(c, addr).value
    case Itself(a) => OneLeaf(Recipient(a, [], EMAIL));
    case Replaced(rcpts) => ResolveTrees(c, n - 1, t.kids, UserOf(addr), rcpts);
  }

  lemma {:induction false} OneLeaf(r: Recipient)
    ensures LeavesAll([Leaf(r)]) == [r] && HeightAll([Leaf(r)]) == 0
  {
    assert [Leaf(r)][..0] == [];
    assert LeavesAll([Leaf(r)]) == LeavesAll([]) + [r];
    assert HeightAll([Leaf(r)]) == Max(HeightAll([]), 0);
  }

  lemma {:induction false} ResolveTrees(c: Resolver, n: nat, ts: seq<Tree>, user: string, rcpts: seq<Recipient>)
    requires AreTrees(c, ts, user, rcpts) && HeightAll(ts) <= n
    ensures ResolveAll(c, n, user, rcpts) == Ok(LeavesAll(ts))
    decreases n, |rcpts| + 1
  {
    if ts != [] {
      var m := |ts| - 1;
      TreesDown(c, ts, user, rcpts);
      ResolveTrees(c, n, ts[..m], user, rcpts[..m]);
      ResolveTreeOne(c, n, ts[m], Substituted(user, rcpts[m]));
    }
  }

  lemma {:induction false} ResolveTreeOne(c: Resolver, n: nat, t: Tree, r: Recipient)
    requires IsTreeOf(c, t, r) && Height(t) <= n
    ensures ResolveOne(c, n, r) == Ok(Leaves(t))
    decreases n, 1
  {
    if r.kind == EMAIL { ResolveTree(c, n, t, r.addr); }
  }

  // An address has at most one expansion tree.
  lemma {:induction false} OneTree(c: Resolver, t: Tree, u: Tree, addr: string)
    requires IsTree(c, t, addr) && IsTree(c, u, addr)
    ensures t == u
    decreases t, 0
  {
    TreeDown(c, t, addr);
    TreeDown(c, u, addr);
    match Expand(c, addr).value
    case Itself(a) =>
    case Replaced(rcpts) => SameTrees(c, t.kids, u.kids, UserOf(addr), rcpts);
  }

  lemma {:induction false} SameTrees(c: Resolver, ts: seq<Tree>, us: seq<Tree>, user: string, rcpts: seq<Recipient>)
    requires AreTrees(c, ts, user, rcpts) && AreTrees(c, us, user, rcpts)
    ensures ts == us
    decreases ts
  {
    if ts != [] {
      var m := |ts| - 1;
      TreesDown(c, ts, user, rcpts);
      TreesDown(c, us, user, rcpts);
      SameTrees(c, ts[..m], us[..m], user, rcpts[..m]);
      SameTree(c, ts[m], us[m], Substituted(user, rcpts[m]));
      SameSnoc(ts, us);
    }
  }

  lemma {:induction false} SameSnoc<T>(a: seq<T>, b: seq<T>)
    requires a != [] && |a| == |b| && a[..|a| - 1] == b[..|b| - 1] && a[|a| - 1] == b[|b| - 1]
    ensures a == b
  {
    assert a == a[..|a| - 1] + [a[|a| - 1]] && b == b[..|b| - 1] + [b[|b| - 1]];
  }

  lemma {:induction false} SameTree(c: Resolver, t: Tree, u: Tree, r: Recipient)
    requires IsTreeOf(c, t, r) && IsTreeOf(c, u, r)
    ensures t == u
    decreases t, 1
  {
    if r.kind == EMAIL { OneTree(c, t, u, r.addr); }
  }

  // The expansion tree of the address is at most n levels high and has these leaves.
  ghost predicate ExpandsTo(c: Resolver, n: nat, addr: string, rs: seq<Recipient>) {
    exists t :: IsTree(c, t, addr) && Height(t) <= n && Leaves(t) == rs
  }

  // resolve succeeds exactly when the expansion tree exists and fits in the limit, and returns its leaves from left
  // to right.
  lemma {:induction false} ResolveMeaning(c: Resolver, n: nat, addr: string, rs: seq<Recipient>)
    ensures Resolve(c, n, addr) == Ok(rs) <==> ExpandsTo(c, n, addr, rs)
  {
    if Resolve(c, n, addr) == Ok(rs) {
      var t := TreeOf(c, n, addr);
    }
    if t :| IsTree(c, t, addr) && Height(t) <= n && Leaves(t) == rs {
      ResolveTree(c, n, t, addr);
    }
  }

  // So an address that stays is its own only recipient, and one that is replaced has those of its replacements.
  lemma {:induction false} ResolveStep(c: Resolver, n: nat, addr: string, rcpts: seq<Recipient>, a: string)
    requires n > 0
    ensures StaysAs(c, addr, a) ==> Resolve(c, n, addr) == Ok([Recipient(a, [], EMAIL)])
    ensures ReplacedBy(c, addr, rcpts) ==> Resolve(c, n, addr) == ResolveAll(c, n - 1, UserOf(addr), rcpts)
  {
    ExpandMeaning(c, addr, rcpts, a);
  }

  // A user without an alias gets the mail for all its spellings, whatever the catch-all says.
  lemma {:induction false} UserKeepsMail(c: Resolver, n: nat, addr: string)
    requires n > 0 && NoEntry(c, addr) && UserIs(c, addr, true)
    ensures Resolve(c, n, addr) == Ok([Recipient(CleanAll(c.rules, addr), [], EMAIL)])
  {
    ResolveStep(c, n, addr, [], CleanAll(c.rules, addr));
  }

  // A higher limit never changes a successful answer.
  lemma {:induction false} HigherLimit(c: Resolver, n: nat, m: nat, addr: string)
    requires n <= m && Resolve(c, n, addr).Ok?
    ensures Resolve(c, m, addr) == Resolve(c, n, addr)
  {
    var t := TreeOf(c, n, addr);
    ResolveTree(c, m, t, addr);
  }

  // ---------------------------------------------------------------- when the limit is hit

  ghost predicate NoErrors(c: Resolver) {
    (forall a :: c.hook(a).Ok?) && (forall u, d :: c.userExists(u, d).Ok?)
  }

  // b is one of the addresses that a is replaced by.
  predicate Child(c: Resolver, a: string, b: string) {
    var e := Expand(c, a);
    && e.Ok? && e.value.Replaced?
    && exists i :: 0 <= i < |e.value.rcpts| && Follows(UserOf(a), e.value.rcpts[i], b)
  }

  predicate Follows(user: string, r: Recipient, b: string) {
    Substituted(user, r).kind == EMAIL && Substituted(user, r).addr == b
  }

  lemma {:induction false} ChildMeaning(c: Resolver, a: string, b: string)
    ensures Child(c, a, b) <==>
      exists rcpts: seq<Recipient>, i: nat ::
        ReplacedBy(c, a, rcpts) && i < |rcpts| && rcpts[i].kind == EMAIL && Becomes(UserOf(a), rcpts[i], rcpts[i].(addr := b))
  {
    if Child(c, a, b) { ChildUp(c, a, b); }
    if rcpts: seq<Recipient>, i: nat :|
      ReplacedBy(c, a, rcpts) && i < |rcpts| && rcpts[i].kind == EMAIL && Becomes(UserOf(a), rcpts[i], rcpts[i].(addr := b))
    {
      ExpandMeaning(c, a, rcpts, a);
      SubstitutedMeaning(UserOf(a), rcpts[i], rcpts[i].(addr := b));
      assert Follows(UserOf(a), rcpts[i], b);
    }
  }

  lemma {:induction false} ChildUp(c: Resolver, a: string, b: string)
    requires Child(c, a, b)
    ensures exists rcpts: seq<Recipient>, i: nat ::
      ReplacedBy(c, a, rcpts) && i < |rcpts| && rcpts[i].kind == EMAIL && Becomes(UserOf(a), rcpts[i], rcpts[i].(addr := b))
  {
    var rcpts := Expand(c, a).value.rcpts;
    var i: nat :| i < |rcpts| && Follows(UserOf(a), rcpts[i], b);
    ExpandMeaning(c, a, rcpts, a);
    SubstitutedMeaning(UserOf(a), rcpts[i], rcpts[i].(addr := b));
  }

  // A chain of replacements.
  predicate Chain(c: Resolver, p: seq<string>) {
    p != [] && forall i :: 0 <= i < |p| - 1 ==> Child(c, p[i], p[i + 1])
  }

  lemma {:induction false} ExpandOk(c: Resolver, addr: string)
    requires NoErrors(c)
    ensures Expand(c, addr).Ok?
  {
    if DomainOf(addr) in c.domains { FallbackOk(c, addr); }
  }

  lemma {:induction false} FallbackOk(c: Resolver, addr: string)
    requires NoErrors(c)
    ensures Lookup(c, addr).Ok? && Fallback(c, addr).Ok?
  {
    assert c.userExists(UserOf(addr), DomainOf(addr)).Ok?;
  }

  lemma {:induction false} OnlyLimit(c: Resolver, n: nat, addr: string)
    requires NoErrors(c) && Resolve(c, n, addr).Err?
    ensures Resolve(c, n, addr) == Err(RecursionLimit)
    decreases n, 0
  {
    if n > 0 {
      ExpandOk(c, addr);
      OnlyLimitAll(c, n - 1, UserOf(addr), Expand(c, addr).value.rcpts);
    }
  }

  lemma {:induction false} OnlyLimitAll(c: Resolver, n: nat, user: string, rcpts: seq<Recipient>)
    requires NoErrors(c) && ResolveAll(c, n, user, rcpts).Err?
    ensures ResolveAll(c, n, user, rcpts) == Err(RecursionLimit)
    decreases n, |rcpts| + 1
  {
    var m := |rcpts| - 1;
    if ResolveAll(c, n, user, rcpts[..m]).Err? {
      OnlyLimitAll(c, n, user, rcpts[..m]);
    } else {
      OnlyLimit(c, n, Substituted(user, rcpts[m]).addr);
    }
  }

  lemma {:induction false} FailingOne(c: Resolver, n: nat, user: string, rcpts: seq<Recipient>) returns (i: nat)
    requires ResolveAll(c, n, user, rcpts).Err?
    ensures i < |rcpts| && ResolveOne(c, n, Substituted(user, rcpts[i])).Err?
    decreases |rcpts|
  {
    var m := |rcpts| - 1;
    if ResolveAll(c, n, user, rcpts[..m]).Err? {
      i := FailingOne(c, n, user, rcpts[..m]);
    } else {
      i := m;
    }
  }

  lemma {:induction false} AllSucceed(c: Resolver, n: nat, user: string, rcpts: seq<Recipient>, i: nat)
    requires ResolveAll(c, n, user, rcpts).Ok? && i < |rcpts|
    ensures ResolveOne(c, n, Substituted(user, rcpts[i])).Ok?
    decreases |rcpts|
  {
    var m := |rcpts| - 1;
    if i < m { AllSucceed(c, n, user, rcpts[..m], i); }
  }

  lemma {:induction false} ChainOf(c: Resolver, n: nat, addr: string) returns (p: seq<string>)
    requires NoErrors(c) && Resolve(c, n, addr).Err?
    ensures |p| == n + 1 && p[0] == addr && Chain(c, p)
  {
    if n == 0 {
      p := [addr];
    } else {
      var b := FailingChild(c, n, addr);
      var q := ChainOf(c, n - 1, b);
      p := [addr] + q;
      ChainCons(c, addr, q);
    }
  }

  lemma {:induction false} FailingChild(c: Resolver, n: nat, addr: string) returns (b: string)
    requires NoErrors(c) && n > 0 && Resolve(c, n, addr).Err?
    ensures Child(c, addr, b) && Resolve(c, n - 1, b).Err?
  {
    ExpandOk(c, addr);
    var rcpts := Expand(c, addr).value.rcpts;
    var i := FailingOne(c, n - 1, UserOf(addr), rcpts);
    b := Substituted(UserOf(addr), rcpts[i]).addr;
    ChildOf(c, addr, rcpts, i);
  }

  lemma {:induction false} ChildOf(c: Resolver, addr: string, rcpts: seq<Recipient>, i: nat)
    requires Expand(c, addr) == Ok(Replaced(rcpts)) && i < |rcpts| && Substituted(UserOf(addr), rcpts[i]).kind == EMAIL
    ensures Child(c, addr, Substituted(UserOf(addr), rcpts[i]).addr)
  {
    assert Follows(UserOf(addr), rcpts[i], Substituted(UserOf(addr), rcpts[i]).addr);
  }

  lemma {:induction false} ChainCons(c: Resolver, addr: string, q: seq<string>)
    requires q != [] && Child(c, addr, q[0]) && Chain(c, q)
    ensures Chain(c, [addr] + q)
  {
    var p := [addr] + q;
    forall k | 0 <= k < |p| - 1 ensures Child(c, p[k], p[k + 1]) {
      if k > 0 { assert p[k] == q[k - 1] && p[k + 1] == q[k - 1 + 1]; }
    }
  }

  lemma {:induction false} ChainFails(c: Resolver, n: nat, p: seq<string>)
    requires NoErrors(c) && Chain(c, p) && |p| == n + 1
    ensures Resolve(c, n, p[0]) == Err(RecursionLimit)
  {
    if n > 0 {
      var q := p[1..];
      forall k | 0 <= k < |q| - 1 ensures Child(c, q[k], q[k + 1]) { assert q[k] == p[k + 1] && q[k + 1] == p[k + 1 + 1]; }
      ChainFails(c, n - 1, q);
      assert Child(c, p[0], p[0 + 1]);
      var user, rcpts := UserOf(p[0]), Expand(c, p[0]).value.rcpts;
      var i :| 0 <= i < |rcpts| && Follows(user, rcpts[i], p[1]);
      if ResolveAll(c, n - 1, user, rcpts).Ok? { AllSucceed(c, n - 1, user, rcpts, i); }
      OnlyLimit(c, n, p[0]);
    }
  }

  // A chain of n replacements starts at the address.
  ghost predicate Replaces(c: Resolver, n: nat, addr: string) {
    exists p :: |p| == n + 1 && p[0] == addr && Chain(c, p)
  }

  // Without errors, resolve fails exactly when some chain of replacements is as long as the limit, and then always
  // with the recursion error.
  lemma {:induction false} LimitMeaning(c: Resolver, n: nat, addr: string)
    requires NoErrors(c)
    ensures Resolve(c, n, addr) == Err(RecursionLimit) <==> Replaces(c, n, addr)
    ensures Resolve(c, n, addr).Err? ==> Resolve(c, n, addr) == Err(RecursionLimit)
  {
    if Resolve(c, n, addr).Err? {
      OnlyLimit(c, n, addr);
      var p := ChainOf(c, n, addr);
    }
    if p :| |p| == n + 1 && p[0] == addr && Chain(c, p) {
      ChainFails(c, n, p);
    }
  }

  lemma {:induction false} ChainAppend(c: Resolver, p: seq<string>, q: seq<string>)
    requires Chain(c, p) && Chain(c, q) && p[|p| - 1] == q[0]
    ensures Chain(c, p + q[1..])
  {
    var r := p + q[1..];
    forall k | 0 <= k < |r| - 1 ensures Child(c, r[k], r[k + 1]) {
      if k < |p| - 1 {
        assert r[k] == p[k] && r[k + 1] == p[k + 1];
      } else {
        assert r[k] == q[k - (|p| - 1)] && r[k + 1] == q[k - (|p| - 1) + 1];
      }
    }
  }

  lemma {:induction false} ChainPrefix(c: Resolver, p: seq<string>, n: nat)
    requires Chain(c, p) && 0 < n <= |p|
    ensures Chain(c, p[..n])
  {
    forall k | 0 <= k < n - 1 ensures Child(c, p[..n][k], p[..n][k + 1]) { assert Child(c, p[k], p[k + 1]); }
  }

  lemma {:induction false} RoundAndRound(c: Resolver, loop: seq<string>, n: nat) returns (p: seq<string>)
    requires Chain(c, loop) && |loop| > 1 && loop[0] == loop[|loop| - 1]
    ensures |p| == n + 1 && p[0] == loop[0] && Chain(c, p)
    decreases n
  {
    if n + 1 <= |loop| {
      p := loop[..n + 1];
      ChainPrefix(c, loop, n + 1);
    } else {
      var q := RoundAndRound(c, loop, n - (|loop| - 1));
      p := loop + q[1..];
      ChainAppend(c, loop, q);
    }
  }

  // An address that leads into an alias loop fails at every limit.
  lemma {:induction false} LoopFails(c: Resolver, start: seq<string>, loop: seq<string>, n: nat)
    requires NoErrors(c) && Chain(c, start) && Chain(c, loop)
    requires |loop| > 1 && start[|start| - 1] == loop[0] == loop[|loop| - 1]
    ensures Resolve(c, n, start[0]) == Err(RecursionLimit)
  {
    var q := RoundAndRound(c, loop, n);
    ChainAppend(c, start, q);
    var p := start + q[1..];
    ChainPrefix(c, p, n + 1);
    ChainFails(c, n, p[..n + 1]);
  }

  // ---------------------------------------------------------------- the limit of the code

  lemma {:induction false} MeaningAt(c: Resolver, n: nat, addr: string)
    ensures forall rs :: Resolve(c, n, addr) == Ok(rs) <==> ExpandsTo(c, n, addr, rs)
    ensures NoErrors(c) ==> (Resolve(c, n, addr) == Err(RecursionLimit) <==> Replaces(c, n, addr))
    ensures NoErrors(c) && Resolve(c, n, addr).Err? ==> Resolve(c, n, addr) == Err(RecursionLimit)
  {
    forall rs ensures Resolve(c, n, addr) == Ok(rs) <==> ExpandsTo(c, n, addr, rs) { ResolveMeaning(c, n, addr, rs); }
    if NoErrors(c) { LimitMeaning(c, n, addr); }
  }

  // Resolve: the leaves of the expansion tree if it is at most ten levels high. Otherwise, if nothing fails to be looked
  // up, an error which says that a chain of ten replacements starts at the address.
  method ResolveAddress(c: Resolver, addr: string) returns (r: Result<seq<Recipient>, ResolveError>)
    ensures forall rs :: r == Ok(rs) <==> ExpandsTo(c, 10, addr, rs)
    ensures NoErrors(c) ==> (r == Err(RecursionLimit) <==> Replaces(c, 10, addr))
    ensures NoErrors(c) && r.Err? ==> r == Err(RecursionLimit)
  {
    MeaningAt(c, RECURSION_LIMIT, addr);
    r := ResolveAt(c, RECURSION_LIMIT, 0, addr);
  }
}

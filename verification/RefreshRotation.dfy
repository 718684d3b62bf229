/**
 Refresh-token rotation as a concurrent protocol.

 Any number of `refresh` and `logout` calls, and of logins, run interleaved against one
 table.  Each call is cut at its database statements.  An UPDATE that has not been
 committed holds a row lock: other readers still see the old row, a second UPDATE of the
 row waits, and a call that raises gives its locks back (no commit, so the database rolls
 back).  A token is named by its hash, and a hash is fresh.
 */
module RefreshRotation {
  import opened Wrappers

  type TokenId = nat
  type CallId = nat
  type User = nat
  type Shop = nat

  /** One committed row of the refresh-token table. */
  datatype Row = Row(user: User, shop: Option<Shop>, expires: int, revoked: bool)

  /** Where a token comes from: the login at the root of its chain, and how many rotations ago. */
  datatype Lineage = Lineage(root: TokenId, gen: nat, parent: Option<TokenId>)

  /** What an unfinished call has done so far. */
  datatype Call =
    | Checked(token: TokenId)                                             // refresh, row read and found good
    | Rotating(token: TokenId)                                            // refresh, past its revoke
    | LeavingFor(user: User)                                              // logout, row read
    | Sweeping(user: User, targets: set<TokenId>, taken: set<TokenId>)    // logout, inside its UPDATE

  datatype State = State(
    rows: map<TokenId, Row>,
    locks: map<TokenId, CallId>,
    calls: map<CallId, Call>,
    lineage: map<TokenId, Lineage>)

  const Initial := State(map[], map[], map[], map[])

  datatype Step =
    | Login(token: TokenId, user: User, shop: Option<Shop>, expires: int)
    | RefreshRead(call: CallId, token: TokenId, now: int)
    | RefreshRevoke(call: CallId)
    | RefreshCommit(call: CallId, child: TokenId, admin: bool, expires: int)
    | LogoutRead(call: CallId, token: TokenId)
    | LogoutUpdate(call: CallId)
    | LogoutTake(call: CallId, token: TokenId)
    | LogoutCommit(call: CallId)
    | Abort(call: CallId)

  predicate Good(row: Row, now: int) {
    !row.revoked && now < row.expires
  }

  /** The rows `revoke_all_for_user` is about to change. */
  function LiveOf(rows: map<TokenId, Row>, user: User): set<TokenId> {
    set t | t in rows && rows[t].user == user && !rows[t].revoked
  }

  function RevokeAll(rows: map<TokenId, Row>, ts: set<TokenId>): map<TokenId, Row> {
    map t | t in rows :: if t in ts then rows[t].(revoked := true) else rows[t]
  }

  /** The locks that remain when call `c` ends. */
  function Released(locks: map<TokenId, CallId>, c: CallId): map<TokenId, CallId> {
    map t | t in locks && locks[t] != c :: locks[t]
  }

  predicate Enabled(s: State, e: Step) {
    match e
    case Login(t, _, _, _) => t !in s.rows
    case RefreshRead(c, _, _) => c !in s.calls
    case RefreshRevoke(c) =>
      c in s.calls && s.calls[c].Checked? && s.calls[c].token in s.rows && s.calls[c].token !in s.locks
    case RefreshCommit(c, child, admin, _) =>
      && c in s.calls && s.calls[c].Rotating? && s.calls[c].token in s.rows
      && s.calls[c].token in s.lineage && child !in s.rows
      && (admin || s.rows[s.calls[c].token].shop.Some?)
    case LogoutRead(c, _) => c !in s.calls
    case LogoutUpdate(c) => c in s.calls && s.calls[c].LeavingFor?
    case LogoutTake(c, t) =>
      c in s.calls && s.calls[c].Sweeping? && t in s.calls[c].targets - s.calls[c].taken && t in s.rows && t !in s.locks
    case LogoutCommit(c) =>
      c in s.calls && s.calls[c].Sweeping? && s.calls[c].taken == s.calls[c].targets
    case Abort(c) => c in s.calls
  }

  function Apply(s: State, e: Step): State
    requires Enabled(s, e)
  {
    match e
    case Login(t, user, shop, expires) =>
      s.(rows := s.rows[t := Row(user, shop, expires, false)],
         lineage := s.lineage[t := Lineage(t, 0, None)])
    case RefreshRead(c, t, now) =>
      if t in s.rows && Good(s.rows[t], now) then s.(calls := s.calls[c := Checked(t)]) else s
    case RefreshRevoke(c) =>
      var t := s.calls[c].token;
      if s.rows[t].revoked then s.(calls := s.calls - {c})
      else s.(locks := s.locks[t := c], calls := s.calls[c := Rotating(t)])
    case RefreshCommit(c, child, admin, expires) =>
      var t := s.calls[c].token;
      var stored := s.rows[t];
      State(
        s.rows[t := stored.(revoked := true)][child :=
          Row(stored.user, if admin then None else stored.shop, expires, false)],
        Released(s.locks, c),
        s.calls - {c},
        s.lineage[child := Lineage(s.lineage[t].root, s.lineage[t].gen + 1, Some(t))])
    case LogoutRead(c, t) =>
      if t in s.rows then s.(calls := s.calls[c := LeavingFor(s.rows[t].user)]) else s
    case LogoutUpdate(c) =>
      var u := s.calls[c].user;
      s.(calls := s.calls[c := Sweeping(u, LiveOf(s.rows, u), {})])
    case LogoutTake(c, t) =>
      var sweep := s.calls[c];
      if s.rows[t].revoked then s.(calls := s.calls[c := sweep.(targets := sweep.targets - {t})])
      else s.(locks := s.locks[t := c], calls := s.calls[c := sweep.(taken := sweep.taken + {t})])
    case LogoutCommit(c) =>
      s.(rows := RevokeAll(s.rows, s.calls[c].taken), locks := Released(s.locks, c), calls := s.calls - {c})
    case Abort(c) =>
      s.(locks := Released(s.locks, c), calls := s.calls - {c})
  }

  predicate Executable(s: State, run: seq<Step>)
    decreases |run|
  {
    run == [] || (Enabled(s, run[0]) && Executable(Apply(s, run[0]), run[1..]))
  }

  /** The state after a run. */
  function After(s: State, run: seq<Step>): State
    requires Executable(s, run)
    decreases |run|
  {
    if run == [] then s else After(Apply(s, run[0]), run[1..])
  }

  // ---------------------------------------------------------------- the invariant

  /** A row lock belongs to one unfinished call, and the row it guards is still live. */
  ghost predicate LocksSound(s: State) {
    && (forall t :: t in s.locks ==>
          && t in s.rows && !s.rows[t].revoked && s.locks[t] in s.calls
          && Holds(s.calls[s.locks[t]], t))
    && (forall c {:trigger CallSound(s.rows, s.locks, c, s.calls[c])} ::
          c in s.calls ==> CallSound(s.rows, s.locks, c, s.calls[c]))
  }

  ghost predicate Holds(call: Call, t: TokenId) {
    match call
    case Rotating(t') => t == t'
    case Sweeping(_, _, taken) => t in taken
    case _ => false
  }

  ghost predicate CallSound(rows: map<TokenId, Row>, locks: map<TokenId, CallId>, c: CallId, call: Call) {
    match call
    case Checked(t) => t in rows
    case Rotating(t) => t in locks && locks[t] == c
    case LeavingFor(_) => true
    case Sweeping(u, targets, taken) =>
      && taken <= targets
      && (forall t :: t in targets ==> t in rows && rows[t].user == u)
      && (forall t :: t in taken ==> t in locks && locks[t] == c)
  }

  /** Every token is a login, or a successor of a revoked token of the same user and login, for the same shop if any. */
  ghost predicate LinkSound(rows: map<TokenId, Row>, lineage: map<TokenId, Lineage>, t: TokenId)
    requires t in rows && lineage.Keys == rows.Keys
  {
    var l := lineage[t];
    && l.root in rows && rows[l.root].user == rows[t].user
    && match l.parent
       case None => l.gen == 0 && l.root == t
       case Some(p) =>
         && p in rows && rows[p].revoked && rows[p].user == rows[t].user
         && (rows[t].shop.Some? ==> rows[t].shop == rows[p].shop)
         && lineage[p].root == l.root && lineage[p].gen + 1 == l.gen
  }

  /** The place of a token: which login it descends from and after how many rotations. */
  ghost function Place(lineage: map<TokenId, Lineage>, t: TokenId): (TokenId, nat)
    requires t in lineage
  {
    (lineage[t].root, lineage[t].gen)
  }

  ghost predicate ChainsSound(rows: map<TokenId, Row>, lineage: map<TokenId, Lineage>) {
    && lineage.Keys == rows.Keys
    && (forall t {:trigger LinkSound(rows, lineage, t)} :: t in rows ==> LinkSound(rows, lineage, t))
    && (forall t, t' {:trigger Place(lineage, t), Place(lineage, t')} ::
          t in rows && t' in rows && Place(lineage, t) == Place(lineage, t') ==> t == t')
  }

  ghost predicate Inv(s: State) {
    LocksSound(s) && ChainsSound(s.rows, s.lineage)
  }

  /** Ending a call gives back exactly its own locks. */
  lemma ReleaseKeepsLocks(s: State, c: CallId, rows: map<TokenId, Row>, lineage: map<TokenId, Lineage>)
    requires LocksSound(s) && c in s.calls
    requires s.rows.Keys <= rows.Keys
    requires forall t :: t in s.rows ==> rows[t].user == s.rows[t].user
    requires forall t :: t in s.locks && s.locks[t] != c ==> !rows[t].revoked
    ensures LocksSound(State(rows, Released(s.locks, c), s.calls - {c}, lineage))
  {
    var s' := State(rows, Released(s.locks, c), s.calls - {c}, lineage);
    forall d | d in s'.calls
      ensures CallSound(s'.rows, s'.locks, d, s'.calls[d])
    {
      assert CallSound(s.rows, s.locks, d, s.calls[d]);
    }
  }

  /** Locking one free live row for call `c`. */
  lemma TakeKeepsLocks(s: State, c: CallId, t: TokenId, call: Call)
    requires LocksSound(s) && c in s.calls
    requires t in s.rows && t !in s.locks && !s.rows[t].revoked
    requires var s' := s.(locks := s.locks[t := c], calls := s.calls[c := call]);
             CallSound(s'.rows, s'.locks, c, call) && Holds(call, t)
    requires forall x :: x in s.locks && s.locks[x] == c ==> Holds(call, x)
    ensures LocksSound(s.(locks := s.locks[t := c], calls := s.calls[c := call]))
  {
    var s' := s.(locks := s.locks[t := c], calls := s.calls[c := call]);
    forall d | d in s'.calls
      ensures CallSound(s'.rows, s'.locks, d, s'.calls[d])
    {
      if d != c { assert CallSound(s.rows, s.locks, d, s.calls[d]); }
    }
  }

  lemma CommitKeepsLocks(s: State, e: Step)
    requires Inv(s) && Enabled(s, e) && (e.RefreshCommit? || e.LogoutCommit?)
    ensures LocksSound(Apply(s, e))
  {
    hide ChainsSound;
    assert CallSound(s.rows, s.locks, e.call, s.calls[e.call]);
    ReleaseKeepsLocks(s, e.call, Apply(s, e).rows, Apply(s, e).lineage);
  }

  lemma StepKeepsLocks(s: State, e: Step)
    requires Inv(s) && Enabled(s, e)
    ensures LocksSound(Apply(s, e))
  {
    hide ChainsSound;
    match e
    case Login(_, _, _, _) =>
      forall d | d in s.calls
        ensures CallSound(Apply(s, e).rows, s.locks, d, s.calls[d])
      {
        assert CallSound(s.rows, s.locks, d, s.calls[d]);
      }
    case RefreshRead(_, _, _) =>
    case RefreshRevoke(c) =>
      var t := s.calls[c].token;
      if s.rows[t].revoked {
        assert Released(s.locks, c) == s.locks;
        ReleaseKeepsLocks(s, c, s.rows, s.lineage);
      } else {
        TakeKeepsLocks(s, c, t, Rotating(t));
      }
    case RefreshCommit(_, _, _, _) => CommitKeepsLocks(s, e);
    case LogoutRead(_, _) =>
    case LogoutUpdate(_) =>
    case LogoutTake(c, t) =>
      var sweep := s.calls[c];
      assert CallSound(s.rows, s.locks, c, sweep);
      if !s.rows[t].revoked {
        TakeKeepsLocks(s, c, t, sweep.(taken := sweep.taken + {t}));
      }
    case LogoutCommit(_) => CommitKeepsLocks(s, e);
    case Abort(c) =>
      ReleaseKeepsLocks(s, c, s.rows, s.lineage);
  }

  lemma LoginKeepsChains(rows: map<TokenId, Row>, lineage: map<TokenId, Lineage>, t: TokenId, row: Row)
    requires ChainsSound(rows, lineage) && t !in rows
    ensures ChainsSound(rows[t := row], lineage[t := Lineage(t, 0, None)])
  {
    var rows', lineage' := rows[t := row], lineage[t := Lineage(t, 0, None)];
    forall x | x in rows'
      ensures LinkSound(rows', lineage', x)
      ensures x != t ==> Place(lineage', x) != Place(lineage', t)
    {
      if x != t { assert LinkSound(rows, lineage, x); }
    }
    forall x, y | x in rows' && y in rows' && Place(lineage', x) == Place(lineage', y)
      ensures x == y
    {
      if x != t && y != t { assert Place(lineage, x) == Place(lineage, y); }
    }
  }

  /** A locked token has no successor yet, so minting one keeps every place taken once. */
  lemma RotationKeepsChains(
    rows: map<TokenId, Row>, lineage: map<TokenId, Lineage>, t: TokenId, child: TokenId, row: Row)
    requires ChainsSound(rows, lineage) && t in rows && !rows[t].revoked && child !in rows
    requires row.user == rows[t].user && (row.shop.Some? ==> row.shop == rows[t].shop)
    ensures ChainsSound(rows[t := rows[t].(revoked := true)][child := row],
                        lineage[child := Lineage(lineage[t].root, lineage[t].gen + 1, Some(t))])
  {
    var rows' := rows[t := rows[t].(revoked := true)][child := row];
    var lineage' := lineage[child := Lineage(lineage[t].root, lineage[t].gen + 1, Some(t))];
    assert LinkSound(rows, lineage, t);
    forall x | x in rows'
      ensures LinkSound(rows', lineage', x)
      ensures x != child ==> Place(lineage', x) != Place(lineage', child)
    {
      if x != child {
        assert LinkSound(rows, lineage, x);
        match lineage[x].parent
        case None =>
        case Some(p) => assert p != t && Place(lineage, p) != Place(lineage, t);
      }
    }
    forall x, y | x in rows' && y in rows' && Place(lineage', x) == Place(lineage', y)
      ensures x == y
    {
      if x != child && y != child { assert Place(lineage, x) == Place(lineage, y); }
    }
  }

  lemma RevokeAllKeepsChains(rows: map<TokenId, Row>, lineage: map<TokenId, Lineage>, ts: set<TokenId>)
    requires ChainsSound(rows, lineage)
    ensures ChainsSound(RevokeAll(rows, ts), lineage)
  {
    forall x | x in rows
      ensures LinkSound(RevokeAll(rows, ts), lineage, x)
    {
      assert LinkSound(rows, lineage, x);
    }
  }

  lemma StepKeepsChains(s: State, e: Step)
    requires Inv(s) && Enabled(s, e)
    ensures ChainsSound(Apply(s, e).rows, Apply(s, e).lineage)
  {
    match e
    case Login(t, user, shop, expires) =>
      LoginKeepsChains(s.rows, s.lineage, t, Row(user, shop, expires, false));
    case RefreshCommit(c, child, _, _) =>
      assert CallSound(s.rows, s.locks, c, s.calls[c]);
      RotationKeepsChains(s.rows, s.lineage, s.calls[c].token, child, Apply(s, e).rows[child]);
    case LogoutCommit(c) =>
      RevokeAllKeepsChains(s.rows, s.lineage, s.calls[c].taken);
    case _ =>
  }

  lemma {:induction false} InvariantOverRuns(s: State, run: seq<Step>)
    requires Inv(s) && Executable(s, run)
    ensures Inv(After(s, run))
    decreases |run|
  {
    if run != [] {
      StepKeepsLocks(s, run[0]);
      StepKeepsChains(s, run[0]);
      InvariantOverRuns(Apply(s, run[0]), run[1..]);
    }
  }

  // ---------------------------------------------------------------- safety over all runs

  /** Two tokens minted from the same token are the same token. */
  lemma AtMostOneSuccessor(run: seq<Step>, x: TokenId, y: TokenId, p: TokenId)
    requires Executable(Initial, run)
    requires var s := After(Initial, run);
             x in s.lineage && y in s.lineage && s.lineage[x].parent == s.lineage[y].parent == Some(p)
    ensures x == y
  {
    var s := After(Initial, run);
    InvariantOverRuns(Initial, run);
    assert LinkSound(s.rows, s.lineage, x) && LinkSound(s.rows, s.lineage, y);
    assert Place(s.lineage, x) == Place(s.lineage, y);
  }

  /** A token is for the user of the one it was minted from, and for that one's shop or, an administrator's, none. */
  lemma TokensInheritUserAndShop(run: seq<Step>, x: TokenId, p: TokenId)
    requires Executable(Initial, run)
    requires var s := After(Initial, run); x in s.rows && x in s.lineage && s.lineage[x].parent == Some(p)
    ensures var rows := After(Initial, run).rows;
            && p in rows && rows[x].user == rows[p].user
            && (rows[x].shop == None || rows[x].shop == rows[p].shop)
  {
    InvariantOverRuns(Initial, run);
    var s := After(Initial, run);
    assert LinkSound(s.rows, s.lineage, x);
  }

  /** The chain of a login has no gap below a token, and everything below it is revoked. */
  lemma {:induction false} AncestorAt(s: State, t: TokenId, g: nat) returns (a: TokenId)
    requires Inv(s) && t in s.rows && g <= s.lineage[t].gen
    ensures a in s.rows && Place(s.lineage, a) == (s.lineage[t].root, g)
    ensures g < s.lineage[t].gen ==> s.rows[a].revoked
    decreases s.lineage[t].gen
  {
    a := t;
    if g < s.lineage[t].gen {
      assert LinkSound(s.rows, s.lineage, t);
      var p := s.lineage[t].parent.value;
      a := AncestorAt(s, p, g);
      if g == s.lineage[p].gen { assert Place(s.lineage, a) == Place(s.lineage, p); }
    }
  }

  /** At every moment of every run a login has at most one live token, and it is the newest one. */
  lemma OneLiveTokenPerLogin(run: seq<Step>, x: TokenId, y: TokenId)
    requires Executable(Initial, run)
    requires var s := After(Initial, run);
             && x in s.rows && y in s.rows && x in s.lineage && y in s.lineage
             && s.lineage[x].root == s.lineage[y].root && !s.rows[x].revoked
    ensures var s := After(Initial, run);
            s.lineage[y].gen <= s.lineage[x].gen && (!s.rows[y].revoked ==> x == y)
  {
    var s := After(Initial, run);
    InvariantOverRuns(Initial, run);
    if s.lineage[x].gen <= s.lineage[y].gen {
      var a := AncestorAt(s, y, s.lineage[x].gen);
      assert Place(s.lineage, a) == Place(s.lineage, x);
      assert s.lineage[y].gen == s.lineage[x].gen ==> Place(s.lineage, x) == Place(s.lineage, y);
    } else {
      var a := AncestorAt(s, x, s.lineage[y].gen);
      assert Place(s.lineage, a) == Place(s.lineage, y);
    }
  }

  /** What no step ever undoes. */
  ghost predicate Grows(s: State, s': State) {
    && s.lineage.Keys == s.rows.Keys && s'.lineage.Keys == s'.rows.Keys
    && forall t :: t in s.rows ==>
         && t in s'.rows && s'.rows[t] == s.rows[t].(revoked := s'.rows[t].revoked) && s'.lineage[t] == s.lineage[t]
         && (s.rows[t].revoked ==> s'.rows[t].revoked)
  }

  /** No new token has a parent that was already revoked in `s`. */
  ghost predicate NoMintFromRevoked(s: State, s': State) {
    forall x :: x in s'.lineage && x !in s.lineage && s'.lineage[x].parent.Some?
      ==> !(s'.lineage[x].parent.value in s.rows && s.rows[s'.lineage[x].parent.value].revoked)
  }

  lemma StepGrows(s: State, e: Step)
    requires Inv(s) && Enabled(s, e)
    ensures Grows(s, Apply(s, e)) && NoMintFromRevoked(s, Apply(s, e))
  {
    if e.RefreshCommit? {
      assert CallSound(s.rows, s.locks, e.call, s.calls[e.call]);
    }
  }

  /** Revocation is final, and a revoked token never mints: over every run. */
  lemma {:induction false} RevokedTokensNeverMint(s: State, run: seq<Step>)
    requires Inv(s) && Executable(s, run)
    ensures Grows(s, After(s, run)) && NoMintFromRevoked(s, After(s, run))
    decreases |run|
  {
    if run != [] {
      var s' := Apply(s, run[0]);
      StepGrows(s, run[0]);
      StepKeepsLocks(s, run[0]);
      StepKeepsChains(s, run[0]);
      RevokedTokensNeverMint(s', run[1..]);
    }
  }

  // ---------------------------------------------------------------- logout

  ghost predicate KeepsCallOpen(c: CallId, run: seq<Step>) {
    forall e :: e in run ==> !(e.LogoutCommit? && e.call == c) && !(e.Abort? && e.call == c)
  }

  /** Logout call `c`, started when the live tokens were `snapshot`, has lost only revoked ones. */
  ghost predicate SweepsStill(s: State, c: CallId, snapshot: set<TokenId>) {
    && c in s.calls && s.calls[c].Sweeping? && s.calls[c].targets <= snapshot
    && forall t :: t in snapshot ==> t in s.rows && (t in s.calls[c].targets || s.rows[t].revoked)
  }

  lemma StepKeepsSweep(s: State, e: Step, c: CallId, snapshot: set<TokenId>)
    requires Inv(s) && Enabled(s, e) && KeepsCallOpen(c, [e]) && SweepsStill(s, c, snapshot)
    ensures SweepsStill(Apply(s, e), c, snapshot)
  {
    assert e in [e];
    StepGrows(s, e);
  }

  lemma {:induction false} RunKeepsSweep(s: State, run: seq<Step>, c: CallId, snapshot: set<TokenId>)
    requires Inv(s) && Executable(s, run) && KeepsCallOpen(c, run) && SweepsStill(s, c, snapshot)
    ensures Inv(After(s, run)) && SweepsStill(After(s, run), c, snapshot)
    decreases |run|
  {
    if run != [] {
      StepKeepsSweep(s, run[0], c, snapshot);
      StepKeepsLocks(s, run[0]);
      StepKeepsChains(s, run[0]);
      RunKeepsSweep(Apply(s, run[0]), run[1..], c, snapshot);
    }
  }

  /**
   What one logout ends: when it commits, the live tokens of its user are exactly those that
   were inserted after its UPDATE began and are still live.
   */
  lemma LogoutEndsExactlyTheSnapshot(s0: State, c: CallId, mid: seq<Step>)
    requires Inv(s0) && Enabled(s0, LogoutUpdate(c))
    requires Executable(Apply(s0, LogoutUpdate(c)), mid) && KeepsCallOpen(c, mid)
    requires Enabled(After(Apply(s0, LogoutUpdate(c)), mid), LogoutCommit(c))
    ensures var u := s0.calls[c].user;
            var s2 := After(Apply(s0, LogoutUpdate(c)), mid);
            LiveOf(Apply(s2, LogoutCommit(c)).rows, u) == set t | t in LiveOf(s2.rows, u) && t !in s0.rows
  {
    var u := s0.calls[c].user;
    var s1 := Apply(s0, LogoutUpdate(c));
    StepKeepsLocks(s0, LogoutUpdate(c));
    StepKeepsChains(s0, LogoutUpdate(c));
    RunKeepsSweep(s1, mid, c, LiveOf(s0.rows, u));
    RevokedTokensNeverMint(s1, mid);
  }

  /** So it leaves its user no session exactly when no token live just before the commit is newer than its UPDATE. */
  lemma LogoutEndsAllExactlyWhen(s0: State, c: CallId, mid: seq<Step>)
    requires Inv(s0) && Enabled(s0, LogoutUpdate(c))
    requires Executable(Apply(s0, LogoutUpdate(c)), mid) && KeepsCallOpen(c, mid)
    requires Enabled(After(Apply(s0, LogoutUpdate(c)), mid), LogoutCommit(c))
    ensures var u := s0.calls[c].user;
            var s2 := After(Apply(s0, LogoutUpdate(c)), mid);
            LiveOf(Apply(s2, LogoutCommit(c)).rows, u) == {} <==> forall t :: t in LiveOf(s2.rows, u) ==> t in s0.rows
  {
    hide Apply;
    hide After;
    hide Executable;
    hide Inv;
    hide LiveOf;
    LogoutEndsExactlyTheSnapshot(s0, c, mid);
    var u := s0.calls[c].user;
    var s2 := After(Apply(s0, LogoutUpdate(c)), mid);
    var left := LiveOf(Apply(s2, LogoutCommit(c)).rows, u);
    assert forall t :: t in left <==> t in LiveOf(s2.rows, u) && t !in s0.rows;
    if forall t :: t in LiveOf(s2.rows, u) ==> t in s0.rows {
      assert forall t :: t !in left;
    }
  }

  /** The oldest token above `s0` on the way down from `x` to its login. */
  lemma {:induction false} OldestNewAncestor(s0: State, s: State, x: TokenId) returns (y: TokenId)
    requires Inv(s) && x in s.rows && x !in s0.rows && s.lineage[x].root in s0.rows
    ensures y in s.rows && y !in s0.rows && s.lineage[y].parent.Some? && s.lineage[y].parent.value in s0.rows
    ensures s.lineage[y].root == s.lineage[x].root && s.lineage[y].gen <= s.lineage[x].gen
    ensures s.rows[y].user == s.rows[x].user
    decreases s.lineage[x].gen
  {
    assert LinkSound(s.rows, s.lineage, x);
    var p := s.lineage[x].parent.value;
    if p in s0.rows {
      y := x;
    } else {
      y := OldestNewAncestor(s0, s, p);
    }
  }

  /** What is known when a logout has committed. */
  lemma LogoutSweeps(s0: State, c: CallId, mid: seq<Step>)
    requires Inv(s0) && Enabled(s0, LogoutUpdate(c))
    requires Executable(Apply(s0, LogoutUpdate(c)), mid) && KeepsCallOpen(c, mid)
    requires Enabled(After(Apply(s0, LogoutUpdate(c)), mid), LogoutCommit(c))
    ensures var s2 := After(Apply(s0, LogoutUpdate(c)), mid);
            var s3 := Apply(s2, LogoutCommit(c));
            && Inv(s2) && Inv(s3) && Grows(s0, s2) && Grows(s2, s3) && NoMintFromRevoked(s0, s2)
            && s3.rows.Keys == s2.rows.Keys
            && forall t :: t in LiveOf(s0.rows, s0.calls[c].user) ==> t in s3.rows && s3.rows[t].revoked
  {
    var s1 := Apply(s0, LogoutUpdate(c));
    StepKeepsLocks(s0, LogoutUpdate(c));
    StepKeepsChains(s0, LogoutUpdate(c));
    var s2 := After(s1, mid);
    RunKeepsSweep(s1, mid, c, LiveOf(s0.rows, s0.calls[c].user));
    RevokedTokensNeverMint(s1, mid);
    StepKeepsLocks(s2, LogoutCommit(c));
    StepKeepsChains(s2, LogoutCommit(c));
    StepGrows(s2, LogoutCommit(c));
  }

  /**
   A token of an older session that is still live any time after a logout committed descends
   from a token that some refresh minted while the logout was inside its UPDATE: that refresh had
   revoked a token `p`, live when the UPDATE began, before the logout could.
   */
  lemma LogoutLeavesOnlyRefreshesInFlight(
    s0: State, c: CallId, mid: seq<Step>, post: seq<Step>, x: TokenId)
    returns (p: TokenId, y: TokenId)
    requires Inv(s0) && Enabled(s0, LogoutUpdate(c))
    requires Executable(Apply(s0, LogoutUpdate(c)), mid) && KeepsCallOpen(c, mid)
    requires Enabled(After(Apply(s0, LogoutUpdate(c)), mid), LogoutCommit(c))
    requires Executable(Apply(After(Apply(s0, LogoutUpdate(c)), mid), LogoutCommit(c)), post)
    requires var s4 := After(Apply(After(Apply(s0, LogoutUpdate(c)), mid), LogoutCommit(c)), post);
             && x in s4.lineage && x in s4.rows && !s4.rows[x].revoked
             && s4.rows[x].user == s0.calls[c].user && s4.lineage[x].root in s0.rows
    ensures p in s0.rows && !s0.rows[p].revoked && s0.rows[p].user == s0.calls[c].user
    ensures var s2 := After(Apply(s0, LogoutUpdate(c)), mid);
            var s4 := After(Apply(s2, LogoutCommit(c)), post);
            && y !in s0.rows && y in s2.rows && y in s2.lineage && s2.lineage[y].parent == Some(p)
            && p in s2.rows && s2.rows[p].revoked
            && s2.lineage[y].root == s4.lineage[x].root && s2.lineage[y].gen <= s4.lineage[x].gen
  {
    hide Apply;
    hide After;
    hide Executable;
    hide LocksSound;
    LogoutSweeps(s0, c, mid);
    var u := s0.calls[c].user;
    var s2 := After(Apply(s0, LogoutUpdate(c)), mid);
    var s3 := Apply(s2, LogoutCommit(c));
    var s4 := After(s3, post);
    RevokedTokensNeverMint(s3, post);
    InvariantOverRuns(s3, post);
    assert x !in s0.rows;
    y := OldestNewAncestor(s0, s4, x);
    p := s4.lineage[y].parent.value;
    assert LinkSound(s4.rows, s4.lineage, y);
    assert !s0.rows[p].revoked ==> p in LiveOf(s0.rows, u);
    if y in s2.rows {
      assert LinkSound(s2.rows, s2.lineage, y);
    }
  }

  /**
   The promise that logout also ends a session another tab is rotating meanwhile fails for a
   refresh that is past its revoke: its token is live after the logout.
   */
  lemma LogoutMissesARotationInFlight(user: User, shop: Shop, now: int, expires: int)
    requires now < expires
    ensures var before := [Login(0, user, Some(shop), expires), RefreshRead(1, 0, now), RefreshRevoke(1),
        LogoutRead(2, 0)];
            var rest := [LogoutUpdate(2), RefreshCommit(1, 1, false, expires), LogoutTake(2, 0), LogoutCommit(2)];
            && Executable(Initial, before) && Executable(After(Initial, before), rest)
            && 1 in LiveOf(After(After(Initial, before), rest).rows, user)
  {
    hide Executable;
    hide After;
    var before := [Login(0, user, Some(shop), expires), RefreshRead(1, 0, now), RefreshRevoke(1), LogoutRead(2, 0)];
    var rest := [LogoutUpdate(2), RefreshCommit(1, 1, false, expires), LogoutTake(2, 0), LogoutCommit(2)];
    FourSteps(Initial, before);
    FourSteps(After(Initial, before), rest);
  }

  lemma OneStep(s: State, run: seq<Step>)
    requires |run| == 1 && Enabled(s, run[0])
    ensures Executable(s, run) && After(s, run) == Apply(s, run[0])
  {
    var t, rest := Apply(s, run[0]), run[1..];
    assert rest == [];
    assert Executable(t, rest) && After(t, rest) == t;
  }

  /** Unfolds a run of four steps. */
  lemma FourSteps(s: State, run: seq<Step>)
    requires |run| == 4 && Enabled(s, run[0])
    requires Enabled(Apply(s, run[0]), run[1])
    requires Enabled(Apply(Apply(s, run[0]), run[1]), run[2])
    requires Enabled(Apply(Apply(Apply(s, run[0]), run[1]), run[2]), run[3])
    ensures Executable(s, run)
    ensures After(s, run) == Apply(Apply(Apply(Apply(s, run[0]), run[1]), run[2]), run[3])
  {
    var s1 := Apply(s, run[0]);
    var s2 := Apply(s1, run[1]);
    var s3 := Apply(s2, run[2]);
    assert run[1..][1..] == run[2..] && run[2..][1..] == run[3..] && run[3..][1..] == [];
    OneStep(s3, run[3..]);
    assert Executable(s2, run[2..]) && After(s2, run[2..]) == After(s3, run[3..]);
    assert Executable(s1, run[1..]) && After(s1, run[1..]) == After(s2, run[2..]);
  }

  // ---------------------------------------------------------------- one call at a time

  /** What the user, shop and membership lookups of `refresh` say about the token's owner. */
  datatype Account = Account(active: bool, admin: bool, allowlisted: bool, shopExists: bool, member: bool)

  datatype AuthError = InvalidRefreshToken

  /** The steps of one undisturbed refresh call. */
  function RefreshAlone(c: CallId, t: TokenId, now: int, child: TokenId, admin: bool, expires: int): seq<Step> {
    [RefreshRead(c, t, now), RefreshRevoke(c), RefreshCommit(c, child, admin, expires)]
  }

  /** The service over a table no other call touches meanwhile. */
  class AuthService {
    var rows: map<TokenId, Row>

    constructor ()
      ensures rows == map[]
    {
      rows := map[];
    }

    /** `revoke`: an UPDATE of the row if it is not revoked yet; says whether a row changed. */
    static method Revoke(tx: map<TokenId, Row>, t: TokenId) returns (tx': map<TokenId, Row>, changed: bool)
      ensures changed <==> t in tx && !tx[t].revoked
      ensures tx' == if changed then tx[t := tx[t].(revoked := true)] else tx
    {
      changed := t in tx && !tx[t].revoked;
      tx' := if changed then tx[t := tx[t].(revoked := true)] else tx;
    }

    /**
     A refresh mints exactly for a live token of an active account: an administrator's while the account is on the
     allowlist, anybody else's while the token has a shop, the shop exists and the account is its member.  One that
     raises leaves the table as it was, even past its revoke; one that returns has revoked exactly its token and added
     exactly one for the same user, for the same shop or an administrator's none.
     */
    method Refresh(t: TokenId, now: int, account: Option<Account>, child: TokenId, expires: int)
      returns (r: Result<TokenId, AuthError>)
      requires child !in rows
      modifies this
      ensures r.Ok? ==> t in old(rows) && !old(rows)[t].revoked && now < old(rows)[t].expires
      ensures r.Ok? ==> account.Some? && account.value.active
      ensures r.Ok? && account.value.admin ==> account.value.allowlisted
      ensures r.Ok? && !account.value.admin ==>
        old(rows)[t].shop.Some? && account.value.shopExists && account.value.member
      ensures t in old(rows) && !old(rows)[t].revoked && now < old(rows)[t].expires
          && account.Some? && account.value.active
          && (if account.value.admin then account.value.allowlisted
              else old(rows)[t].shop.Some? && account.value.shopExists && account.value.member)
        ==> r == Ok(child)
      ensures r.Err? ==> rows == old(rows)
      ensures r.Ok? ==> r.value == child
      ensures r.Ok? ==>
        rows == old(rows)[t := old(rows)[t].(revoked := true)][child :=
          Row(old(rows)[t].user, if account.value.admin then None else old(rows)[t].shop, expires, false)]
    {
      if t !in rows || rows[t].revoked || rows[t].expires <= now { return Err(InvalidRefreshToken); }
      if account.None? || !account.value.active { return Err(InvalidRefreshToken); }
      var tx, changed := Revoke(rows, t);
      if !changed { return Err(InvalidRefreshToken); }
      var stored := rows[t];
      if account.value.admin {
        if !account.value.allowlisted { return Err(InvalidRefreshToken); }
        tx := tx[child := Row(stored.user, None, expires, false)];
      } else {
        if stored.shop.None? || !account.value.shopExists || !account.value.member {
          return Err(InvalidRefreshToken);
        }
        tx := tx[child := Row(stored.user, stored.shop, expires, false)];
      }
      rows := tx;
      r := Ok(child);
    }

    /** Logging out with any token of a user, live or not, ends every session of that user. */
    method Logout(t: TokenId)
      modifies this
      ensures t !in old(rows) ==> rows == old(rows)
      ensures t in old(rows) ==> rows.Keys == old(rows).Keys && forall x :: x in rows ==>
        if old(rows)[x].user == old(rows)[t].user then rows[x] == old(rows)[x].(revoked := true)
        else rows[x] == old(rows)[x]
      ensures t in old(rows) ==> LiveOf(rows, old(rows)[t].user) == {}
      ensures t in old(rows) ==> forall u :: u != old(rows)[t].user ==> LiveOf(rows, u) == LiveOf(old(rows), u)
    {
      if t !in rows { return; }
      rows := RevokeAll(rows, LiveOf(rows, rows[t].user));
    }
  }

  /** Undisturbed, the three steps of a refresh can be taken exactly for a token that is live and not expired. */
  lemma RefreshAloneMints(s: State, c: CallId, t: TokenId, now: int, child: TokenId, admin: bool, expires: int)
    requires s.lineage.Keys == s.rows.Keys && s.locks == map[] && s.calls == map[]
    requires child !in s.rows && (t in s.rows ==> admin || s.rows[t].shop.Some?)
    ensures var run := RefreshAlone(c, t, now, child, admin, expires);
            && (Executable(s, run) <==> t in s.rows && !s.rows[t].revoked && now < s.rows[t].expires)
            && (Executable(s, run) ==>
                  After(s, run).rows ==
                  s.rows[t := s.rows[t].(revoked := true)][child :=
                    Row(s.rows[t].user, if admin then None else s.rows[t].shop, expires, false)])
  {
    var e1, e2, e3 := RefreshRead(c, t, now), RefreshRevoke(c), RefreshCommit(c, child, admin, expires);
    var run := RefreshAlone(c, t, now, child, admin, expires);
    assert run[1..] == [e2, e3] && run[1..][1..] == [e3] && [e3][1..] == [];
    var s1 := Apply(s, e1);
    if t in s.rows && Good(s.rows[t], now) {
      var s2 := Apply(s1, e2);
      assert Executable(s2, [e3]);
      assert Executable(s1, [e2, e3]);
      assert Executable(s, run) && After(s, run) == After(s1, [e2, e3]) == After(s2, [e3]) == Apply(s2, e3);
    } else {
      assert !Executable(s1, run[1..]);
    }
  }
}

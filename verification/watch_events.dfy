// The watcher's one-shot ignore tokens: a revision written by the process itself is
// registered, and the event it causes is dropped once. Each operation on the tokens is one
// lock region; the times they carry were read before it and are arbitrary.
module WatchEvents {

  const IGNORE_TOKEN_TTL_SECONDS := 30.0
  const MAX_IGNORE_TOKENS: nat := 2048

  // A path and a file revision, of which only the identity matters; no revision when the
  // file cannot be read.
  datatype Revision = Missing | Revision(id: int)

  datatype Token = Token(path: int, revision: int, expiresAt: real)

  datatype Op = Register(path: int, written: int, now: real) | Check(path: int, current: Revision, now: real)

  // ----- The ordered dictionary of tokens, oldest first -----

  function Purge(tokens: seq<Token>, now: real): (r: seq<Token>)
    ensures |r| <= |tokens|
    ensures forall t :: t in r <==> t in tokens && now < t.expiresAt
  {
    if tokens == [] then []
    else
      var n := |tokens| - 1;
      var r := Purge(tokens[..n], now);
      assert tokens == tokens[..n] + [tokens[n]];
      if tokens[n].expiresAt <= now then r else r + [tokens[n]]
  }

  function Drop(tokens: seq<Token>, path: int): (r: seq<Token>)
    ensures |r| <= |tokens|
    ensures forall t :: t in r <==> t in tokens && t.path != path
  {
    if tokens == [] then []
    else
      var n := |tokens| - 1;
      var r := Drop(tokens[..n], path);
      assert tokens == tokens[..n] + [tokens[n]];
      if tokens[n].path == path then r else r + [tokens[n]]
  }

  // The newest `n` tokens.
  function Newest(tokens: seq<Token>, n: nat): (r: seq<Token>)
    ensures |r| <= n && |r| <= |tokens|
    ensures forall t :: t in r ==> t in tokens
  {
    if |tokens| > n then tokens[|tokens| - n..] else tokens
  }

  function Apply(tokens: seq<Token>, op: Op): seq<Token> {
    var rest := Drop(Purge(tokens, op.now), op.path);
    match op
    case Register(path, revision, now) =>
      Newest(rest, MAX_IGNORE_TOKENS - 1) + [Token(path, revision, now + IGNORE_TOKEN_TTL_SECONDS)]
    case Check(_, _, _) => rest
  }

  // Whether the check drops the event.
  ghost predicate Suppresses(tokens: seq<Token>, op: Op) {
    op.Check? && op.current.Revision? &&
    exists t :: t in tokens && t.path == op.path && t.revision == op.current.id && op.now < t.expiresAt
  }

  ghost function After(ops: seq<Op>, n: nat): seq<Token>
    requires n <= |ops|
  {
    if n == 0 then [] else Apply(After(ops, n - 1), ops[n - 1])
  }

  // ----- At most one event for each registration -----

  ghost predicate UniquePaths(tokens: seq<Token>) {
    forall i, j :: 0 <= i < j < |tokens| ==> tokens[i].path != tokens[j].path
  }

  ghost predicate Registers(op: Op, t: Token) {
    op.Register? && op.path == t.path && op.written == t.revision && t.expiresAt == op.now + IGNORE_TOKEN_TTL_SECONDS
  }

  // Nothing happened to the path from `i` up to `n`.
  ghost predicate Untouched(ops: seq<Op>, path: int, i: nat, n: nat) {
    forall k :: i <= k < n && k < |ops| ==> ops[k].path != path
  }

  lemma NewestUnique(tokens: seq<Token>, n: nat)
    requires UniquePaths(tokens)
    ensures UniquePaths(Newest(tokens, n))
  {
  }

  lemma FiltersKeepUnique(tokens: seq<Token>, now: real, path: int)
    requires UniquePaths(tokens)
    ensures UniquePaths(Purge(tokens, now)) && UniquePaths(Drop(tokens, path))
  {
    PurgeKeepsUnique(tokens, now);
    DropKeepsUnique(tokens, path);
  }

  lemma LastIsNew(tokens: seq<Token>)
    requires UniquePaths(tokens) && tokens != []
    ensures UniquePaths(tokens[..|tokens| - 1])
    ensures forall t :: t in tokens[..|tokens| - 1] ==> t.path != tokens[|tokens| - 1].path
  {
    var before := tokens[..|tokens| - 1];
    forall t | t in before
      ensures t.path != tokens[|tokens| - 1].path
    {
      var i :| 0 <= i < |before| && before[i] == t;
      assert tokens[i] == t;
    }
  }

  lemma {:induction false} PurgeKeepsUnique(tokens: seq<Token>, now: real)
    requires UniquePaths(tokens)
    ensures UniquePaths(Purge(tokens, now))
  {
    if tokens != [] {
      LastIsNew(tokens);
      PurgeKeepsUnique(tokens[..|tokens| - 1], now);
      AddUnique(Purge(tokens[..|tokens| - 1], now), tokens[|tokens| - 1]);
    }
  }

  lemma {:induction false} DropKeepsUnique(tokens: seq<Token>, path: int)
    requires UniquePaths(tokens)
    ensures UniquePaths(Drop(tokens, path))
  {
    if tokens != [] {
      LastIsNew(tokens);
      DropKeepsUnique(tokens[..|tokens| - 1], path);
      AddUnique(Drop(tokens[..|tokens| - 1], path), tokens[|tokens| - 1]);
    }
  }

  // The table never exceeds its bound and holds one token for each path.
  lemma {:induction false} TokensBounded(ops: seq<Op>, n: nat)
    requires n <= |ops|
    ensures |After(ops, n)| <= 2048 && UniquePaths(After(ops, n))
  {
    hide Apply, UniquePaths;
    if n == 0 {
      NoTokens();
    } else {
      TokensBounded(ops, n - 1);
      ApplyKeepsBound(After(ops, n - 1), ops[n - 1]);
    }
  }

  lemma NoTokens()
    ensures UniquePaths([])
  {
  }

  lemma ApplyKeepsBound(tokens: seq<Token>, op: Op)
    requires |tokens| <= MAX_IGNORE_TOKENS && UniquePaths(tokens)
    ensures |Apply(tokens, op)| <= MAX_IGNORE_TOKENS && UniquePaths(Apply(tokens, op))
  {
    hide Purge, Drop, Newest, UniquePaths;
    FiltersKeepUnique(tokens, op.now, op.path);
    var purged := Purge(tokens, op.now);
    FiltersKeepUnique(purged, op.now, op.path);
    NewestUnique(Drop(purged, op.path), MAX_IGNORE_TOKENS - 1);
    if op.Register? {
      AddUnique(Newest(Drop(purged, op.path), MAX_IGNORE_TOKENS - 1),
                Token(op.path, op.written, op.now + IGNORE_TOKEN_TTL_SECONDS));
    }
  }

  lemma AddUnique(tokens: seq<Token>, t: Token)
    requires UniquePaths(tokens) && forall u :: u in tokens ==> u.path != t.path
    ensures UniquePaths(tokens + [t])
  {
  }

  lemma ApplyMembers(tokens: seq<Token>, op: Op, t: Token)
    requires t in Apply(tokens, op)
    ensures if t.path == op.path then Registers(op, t) else t in tokens
  {
    hide Purge, Drop, Newest;
  }

  // Every token in the table comes from the last operation on its path.
  lemma {:induction false} TokenOrigin(ops: seq<Op>, n: nat, t: Token) returns (i: nat)
    requires n <= |ops| && t in After(ops, n)
    ensures i < n && Registers(ops[i], t) && Untouched(ops, t.path, i + 1, n)
  {
    hide Apply;
    i := n - 1;
    ApplyMembers(After(ops, n - 1), ops[n - 1], t);
    if ops[n - 1].path != t.path {
      i := TokenOrigin(ops, n - 1, t);
    }
  }

  // An event is dropped only for the exact revision that the last operation on its path
  // registered, within the time to live of that registration.
  lemma SuppressionHasRegistration(ops: seq<Op>, j: nat) returns (i: nat)
    requires j < |ops| && Suppresses(After(ops, j), ops[j])
    ensures i < j && ops[i].Register? && ops[i].path == ops[j].path
    ensures ops[j].current == Revision(ops[i].written) && ops[j].now < ops[i].now + 30.0
    ensures Untouched(ops, ops[j].path, i + 1, j)
  {
    var t :| t in After(ops, j) && t.path == ops[j].path && t.revision == ops[j].current.id && ops[j].now < t.expiresAt;
    i := TokenOrigin(ops, j, t);
  }

  // Once an event of a path was looked at, dropped or not, none is dropped before the next
  // registration of the path: no token drops two events.
  lemma OneEventEach(ops: seq<Op>, j: nat, l: nat)
    requires j < l < |ops| && ops[j].Check? && ops[j].path == ops[l].path
    requires Suppresses(After(ops, l), ops[l])
    ensures exists i :: j < i < l && ops[i].Register? && ops[i].path == ops[l].path
                        && ops[l].current == Revision(ops[i].written)
  {
    var i := SuppressionHasRegistration(ops, l);
    assert !(i < j) && i != j;
  }

  // ----- A registration is honoured -----

  // Registrations from `i` up to `n`.
  ghost function Registrations(ops: seq<Op>, i: nat, n: nat): nat
    requires n <= |ops|
    decreases n
  {
    if n <= i then 0
    else Registrations(ops, i, n - 1) + (if ops[n - 1].Register? then 1 else 0)
  }

  lemma {:induction false} PurgeKeepsNewest(tokens: seq<Token>, now: real, n: nat, t: Token)
    requires t in Newest(tokens, n) && now < t.expiresAt
    ensures t in Newest(Purge(tokens, now), n)
  {
    if tokens != [] && n > 0 {
      var m := |tokens| - 1;
      if tokens[m] != t || tokens[m].expiresAt <= now {
        LastAside(tokens, n, t);
        PurgeKeepsNewest(tokens[..m], now, n - 1, t);
        NewestGrows(Purge(tokens[..m], now), n, t);
        if tokens[m].expiresAt > now {
          NewestAppend(Purge(tokens[..m], now), tokens[m], n, t);
        }
      } else {
        NewestHasLast(Purge(tokens, now), n, t);
      }
    }
  }

  lemma {:induction false} DropKeepsNewest(tokens: seq<Token>, path: int, n: nat, t: Token)
    requires t in Newest(tokens, n) && t.path != path
    ensures t in Newest(Drop(tokens, path), n)
  {
    if tokens != [] && n > 0 {
      var m := |tokens| - 1;
      if tokens[m] != t || tokens[m].path == path {
        LastAside(tokens, n, t);
        DropKeepsNewest(tokens[..m], path, n - 1, t);
        NewestGrows(Drop(tokens[..m], path), n, t);
        if tokens[m].path != path {
          NewestAppend(Drop(tokens[..m], path), tokens[m], n, t);
        }
      } else {
        NewestHasLast(Drop(tokens, path), n, t);
      }
    }
  }

  lemma NewestHasLast(tokens: seq<Token>, n: nat, t: Token)
    requires tokens != [] && n > 0 && tokens[|tokens| - 1] == t
    ensures t in Newest(tokens, n)
  {
    var r := Newest(tokens, n);
    assert r[|r| - 1] == t;
  }

  lemma LastAside(tokens: seq<Token>, n: nat, t: Token)
    requires tokens != [] && n > 0 && t in Newest(tokens, n) && tokens[|tokens| - 1] != t
    ensures t in Newest(tokens[..|tokens| - 1], n - 1)
  {
    var m := |tokens| - 1;
    var k :| 0 <= k < |tokens| && tokens[k] == t && k >= |tokens| - n;
    var rest := tokens[..m];
    var from := if m > n - 1 then m - (n - 1) else 0;
    assert Newest(rest, n - 1)[k - from] == t;
  }

  lemma NewestGrows(tokens: seq<Token>, n: nat, t: Token)
    requires n > 0 && t in Newest(tokens, n - 1)
    ensures t in Newest(tokens, n)
  {
    if |tokens| > n {
      assert Newest(tokens, n)[1..] == Newest(tokens, n - 1);
    }
  }

  lemma NewestAppend(tokens: seq<Token>, last: Token, n: nat, t: Token)
    requires n > 0 && t in Newest(tokens, n - 1)
    ensures t in Newest(tokens + [last], n)
  {
    assert Newest(tokens + [last], n) == Newest(tokens, n - 1) + [last];
  }

  // A token is among the newest as long as few registrations follow it.
  lemma {:induction false} TokenStays(ops: seq<Op>, i: nat, n: nat, t: Token)
    requires i < n <= |ops| && Registers(ops[i], t) && Untouched(ops, t.path, i + 1, n)
    requires forall k :: i < k < n ==> ops[k].now < t.expiresAt
    requires Registrations(ops, i + 1, n) < MAX_IGNORE_TOKENS
    ensures t in Newest(After(ops, n), Registrations(ops, i + 1, n) + 1)
    decreases n
  {
    hide Apply, Newest;
    var op := ops[n - 1];
    if n == i + 1 {
      JustRegistered(After(ops, n - 1), op, t);
    } else {
      TokenStays(ops, i, n - 1, t);
      ApplyKeepsNewest(After(ops, n - 1), op, Registrations(ops, i + 1, n - 1) + 1, t);
    }
  }

  lemma JustRegistered(tokens: seq<Token>, op: Op, t: Token)
    requires Registers(op, t)
    ensures t in Newest(Apply(tokens, op), 1)
  {
    hide Purge, Drop, Newest;
    NewestHasLast(Apply(tokens, op), 1, t);
  }

  lemma ApplyKeepsNewest(tokens: seq<Token>, op: Op, c: nat, t: Token)
    requires t in Newest(tokens, c) && op.now < t.expiresAt && op.path != t.path
    requires op.Register? ==> c < MAX_IGNORE_TOKENS
    ensures t in Newest(Apply(tokens, op), if op.Register? then c + 1 else c)
  {
    hide Purge, Drop, Newest;
    PurgeKeepsNewest(tokens, op.now, c, t);
    var purged := Purge(tokens, op.now);
    DropKeepsNewest(purged, op.path, c, t);
    var rest := Drop(purged, op.path);
    if op.Register? {
      NewestOfNewest(rest, MAX_IGNORE_TOKENS - 1, c, t);
      NewestAppend(Newest(rest, MAX_IGNORE_TOKENS - 1), Token(op.path, op.written, op.now + IGNORE_TOKEN_TTL_SECONDS),
                   c + 1, t);
    }
  }

  lemma NewestOfNewest(tokens: seq<Token>, m: nat, n: nat, t: Token)
    requires n <= m && t in Newest(tokens, n)
    ensures t in Newest(Newest(tokens, m), n)
  {
    var newest := Newest(tokens, m);
    if |tokens| > m {
      assert newest == tokens[|tokens| - m..];
      assert newest[m - n..] == tokens[|tokens| - n..];
      assert Newest(newest, n) == newest[m - n..] && Newest(tokens, n) == tokens[|tokens| - n..];
    }
  }

  // A registered revision's next event is dropped, if it is the next operation on its path,
  // nothing up to it happens after the token has expired, and fewer than the maximum number
  // of registrations come between.
  lemma RegistrationIsHonoured(ops: seq<Op>, i: nat, j: nat)
    requires i < j < |ops| && ops[i].Register? && ops[j].Check? && ops[j].path == ops[i].path
    requires ops[j].current == Revision(ops[i].written)
    requires Untouched(ops, ops[i].path, i + 1, j)
    requires forall k :: i < k <= j ==> ops[k].now < ops[i].now + 30.0
    requires Registrations(ops, i + 1, j) < 2048
    ensures Suppresses(After(ops, j), ops[j])
  {
    var t := Token(ops[i].path, ops[i].written, ops[i].now + IGNORE_TOKEN_TTL_SECONDS);
    TokenStays(ops, i, j, t);
    assert t in After(ops, j);
  }

  // ----- The class -----

  datatype Pending = Pending(deleted: bool, time: real)

  class VaultEventHandler {
    var tokens: seq<Token>
    var pending: map<int, Pending>
    ghost var ops: seq<Op>

    // The tokens are those that the operations so far leave.
    ghost predicate Valid()
      reads this
    {
      tokens == After(ops, |ops|)
    }

    constructor ()
      ensures Valid() && ops == [] && pending == map[]
    {
      tokens, pending, ops := [], map[], [];
    }

    // `ignore_next_change`
    method IgnoreNextChange(path: int, revision: Revision, now: real) returns (recorded: bool)
      requires Valid()
      modifies this`tokens, this`ops
      ensures Valid() && recorded == revision.Revision?
      ensures ops == if recorded then old(ops) + [Register(path, revision.id, now)] else old(ops)
    {
      if revision == Missing {
        return false;
      }
      hide Purge, Drop, Newest, After, Apply;
      LogOne(ops, Register(path, revision.id, now));
      ops := ops + [Register(path, revision.id, now)];
      tokens := AddToken(tokens, path, revision.id, now);
      return true;
    }

    // `_check_and_clear_ignore`
    method CheckAndClearIgnore(path: int, revision: Revision, now: real) returns (ignored: bool)
      requires Valid()
      modifies this`tokens, this`ops
      ensures Valid() && ops == old(ops) + [Check(path, revision, now)]
      ensures ignored == Suppresses(old(tokens), Check(path, revision, now))
    {
      hide Purge, Drop, Newest;
      LogOne(ops, Check(path, revision, now));
      TokensBounded(ops, |ops|);
      ops := ops + [Check(path, revision, now)];
      var live := Purge(tokens, now);
      var i := Find(live, path);
      OnlyToken(tokens, path, now, i);
      tokens := Drop(live, path);
      ignored := i < |live| && revision == Revision(live[i].revision);
    }

    // `_enqueue`: an event that is not dropped replaces the pending one of its path.
    method Enqueue(path: int, deleted: bool, revision: Revision, now: real, time: real)
      requires Valid()
      modifies this
      ensures Valid() && ops == old(ops) + [Check(path, revision, now)]
      ensures pending == if Suppresses(old(tokens), Check(path, revision, now)) then old(pending)
                         else old(pending)[path := Pending(deleted, time)]
    {
      var ignored := CheckAndClearIgnore(path, revision, now);
      if ignored {
        return;
      }
      pending := pending[path := Pending(deleted, time)];
    }
  }

  lemma LogOne(ops: seq<Op>, op: Op)
    ensures After(ops + [op], |ops| + 1) == Apply(After(ops, |ops|), op)
  {
    AfterPrefix(ops, op, |ops|);
  }

  lemma {:induction false} AfterPrefix(ops: seq<Op>, op: Op, n: nat)
    requires n <= |ops|
    ensures After(ops + [op], n) == After(ops, n)
  {
    hide Apply;
    if n > 0 {
      AfterPrefix(ops, op, n - 1);
    }
  }

  // The lock region of `ignore_next_change`.
  method AddToken(tokens0: seq<Token>, path: int, revision: int, now: real) returns (tokens: seq<Token>)
    ensures tokens == Apply(tokens0, Register(path, revision, now))
  {
    hide Purge, Drop, Newest;
    tokens := Drop(Purge(tokens0, now), path);
    tokens := EvictOldest(tokens);
    tokens := tokens + [Token(path, revision, now + IGNORE_TOKEN_TTL_SECONDS)];
  }

  // The loop that makes room for one more token.
  method EvictOldest(tokens0: seq<Token>) returns (tokens: seq<Token>)
    ensures tokens == Newest(tokens0, MAX_IGNORE_TOKENS - 1)
  {
    hide Newest;
    tokens := tokens0;
    while |tokens| >= MAX_IGNORE_TOKENS
      invariant Newest(tokens, MAX_IGNORE_TOKENS - 1) == Newest(tokens0, MAX_IGNORE_TOKENS - 1)
    {
      NewestWithoutOldest(tokens, MAX_IGNORE_TOKENS - 1);
      tokens := tokens[1..];
    }
    NewestOfFew(tokens, MAX_IGNORE_TOKENS - 1);
  }

  lemma NewestWithoutOldest(tokens: seq<Token>, n: nat)
    requires |tokens| > n
    ensures Newest(tokens[1..], n) == Newest(tokens, n)
  {
  }

  lemma NewestOfFew(tokens: seq<Token>, n: nat)
    requires |tokens| <= n
    ensures Newest(tokens, n) == tokens
  {
  }

  // The position of the path's token.
  function Find(tokens: seq<Token>, path: int): (i: nat)
    ensures i <= |tokens| && (i < |tokens| ==> tokens[i].path == path)
    ensures i == |tokens| ==> forall t :: t in tokens ==> t.path != path
  {
    if tokens == [] then 0
    else if tokens[0].path == path then 0
    else 1 + Find(tokens[1..], path)
  }

  lemma OnlyToken(tokens: seq<Token>, path: int, now: real, i: nat)
    requires UniquePaths(tokens) && i == Find(Purge(tokens, now), path)
    ensures var live := Purge(tokens, now);
            forall t :: t in tokens && t.path == path && now < t.expiresAt <==> i < |live| && t == live[i]
  {
    FiltersKeepUnique(tokens, now, path);
    var live := Purge(tokens, now);
    forall t
      ensures t in tokens && t.path == path && now < t.expiresAt <==> i < |live| && t == live[i]
    {
      if t in live && t.path == path {
        var k :| 0 <= k < |live| && live[k] == t;
        assert i < |live| && k == i;
      }
    }
  }
}

/** Deleting a post, or clearing all of them, through the foreign-key web: which
    databases let the ordered statements through, and what is left. */
module PostDeletion {
  import opened Outcomes
  import opened ForeignKeys

  // ----- What belongs to the target

  function Parent(t: Table, c: Column): Option<Table> {
    if Plain(t, c).Some? then Plain(t, c) else Cascading(t, c)
  }

  /** Distance from posts; every reference points to a smaller one. */
  function Rank(t: Table): nat {
    match t
    case Posts => 0
    case Alerts => 2
    case NotificationDeliveries => 3
    case IncidentAlerts => 3
    case Observations => 2
    case ConversationMessages => 2
    case ConversationEvidence => 3
    case DeviceProfileOids => 2
    case CheckResults => 2
    case _ => 1
  }

  predicate Hit(target: Target, post: Key) {
    match target case One(p) => post == p case Every => true
  }

  /** x is a targeted post, or refers to one directly or through other rows. */
  ghost predicate Owned(db: Db, target: Target, x: Ref)
    decreases Rank(x.0)
  {
    && x in db
    && (|| (x.0.Posts? && Hit(target, x.1))
        || exists c | c in db[x] && Parent(x.0, c).Some? && Rank(Parent(x.0, c).value) < Rank(x.0) ::
             Owned(db, target, (Parent(x.0, c).value, db[x][c])))
  }

  /** The database without what belongs to the target. */
  ghost function Without(db: Db, target: Target): Db {
    map x | x in db && !Owned(db, target, x) :: db[x]
  }

  // The proofs below work with the set o of owned rows and these two facts
  // about it, so that ownership is unfolded only where a step needs it.

  predicate Via(db: Db, o: set<Ref>, x: Ref, c: Column)
    requires x in db
  {
    c in db[x] && Parent(x.0, c).Some? && (Parent(x.0, c).value, db[x][c]) in o
  }

  predicate Belongs(db: Db, target: Target, o: set<Ref>, x: Ref)
    requires x in db
  {
    (x.0.Posts? && Hit(target, x.1)) || exists c: Column :: Via(db, o, x, c)
  }

  ghost predicate Closure(db: Db, target: Target, o: set<Ref>) {
    && o <= db.Keys
    && forall x {:trigger Belongs(db, target, o, x)} | x in db :: x in o <==> Belongs(db, target, o, x)
  }

  ghost function OwnedRows(db: Db, target: Target): set<Ref> {
    set x | x in db && Owned(db, target, x)
  }

  lemma RankDrops(t: Table, c: Column)
    requires Parent(t, c).Some?
    ensures Rank(Parent(t, c).value) < Rank(t)
  {
  }

  lemma OwnedHasReason(db: Db, target: Target, x: Ref)
    requires Owned(db, target, x)
    ensures Belongs(db, target, OwnedRows(db, target), x)
  {
    if !(x.0.Posts? && Hit(target, x.1)) {
      var c :| c in db[x] && Parent(x.0, c).Some? && Owned(db, target, (Parent(x.0, c).value, db[x][c]));
      assert Via(db, OwnedRows(db, target), x, c);
    }
  }

  lemma ReasonMakesOwned(db: Db, target: Target, x: Ref)
    requires x in db && Belongs(db, target, OwnedRows(db, target), x)
    ensures Owned(db, target, x)
  {
    if !(x.0.Posts? && Hit(target, x.1)) {
      var c :| Via(db, OwnedRows(db, target), x, c);
      RankDrops(x.0, c);
      assert Owned(db, target, (Parent(x.0, c).value, db[x][c]));
    }
  }

  lemma OwnedRowsClosure(db: Db, target: Target)
    ensures Closure(db, target, OwnedRows(db, target))
  {
    var o := OwnedRows(db, target);
    forall x | x in db ensures x in o <==> Belongs(db, target, o, x) {
      if x in o { OwnedHasReason(db, target, x); }
      if Belongs(db, target, o, x) { ReasonMakesOwned(db, target, x); }
    }
  }

  /** A row that refers to an owned row is owned. */
  lemma OwnedDown(db: Db, target: Target, o: set<Ref>, x: Ref, c: Column)
    requires Closure(db, target, o) && x in db && Via(db, o, x, c)
    ensures x in o
  {
    assert Belongs(db, target, o, x);
  }

  /** An owned row that is not a post refers to an owned row. */
  lemma OwnedUp(db: Db, target: Target, o: set<Ref>, x: Ref) returns (c: Column)
    requires Closure(db, target, o) && x in o && !x.0.Posts?
    ensures Via(db, o, x, c)
  {
    assert Belongs(db, target, o, x);
    c :| Via(db, o, x, c);
  }

  /** A post is owned exactly when it is targeted. */
  lemma OwnedPost(db: Db, target: Target, o: set<Ref>, p: Key)
    requires Closure(db, target, o) && (Posts, p) in db
    ensures (Posts, p) in o <==> Hit(target, p)
  {
    assert Belongs(db, target, o, (Posts, p)) <==> Hit(target, p) by {
      forall c: Column ensures !Via(db, o, (Posts, p), c) {}
    }
  }

  function PostOf(db: Db, x: Ref): Option<Key> {
    if x in db && PostId in db[x] then Some(db[x][PostId]) else None
  }

  /** Alerts raised by a rule of the post are filed under that same post. */
  predicate AlertsAligned(db: Db, p: Key) {
    forall x | x in db && x.0.Alerts? && RuleId in db[x] && PostOf(db, (Rules, db[x][RuleId])) == Some(p) ::
      PostOf(db, x) == Some(p)
  }

  /** Observations sent by a collector of the post are filed under that same post. */
  predicate ObservationsAligned(db: Db, p: Key) {
    forall x | x in db && x.0.Observations? && CollectorId in db[x] &&
               PostOf(db, (CollectorKeys, db[x][CollectorId])) == Some(p) ::
      PostOf(db, x) == Some(p)
  }

  predicate Aligned(db: Db, p: Key) { AlertsAligned(db, p) && ObservationsAligned(db, p) }

  /** The statements are aimed at rows that belong to the target. */
  predicate Aimed(db: Db, target: Target) {
    target.One? ==> Aligned(db, target.post)
  }

  ghost predicate Base(db: Db, target: Target, o: set<Ref>) {
    Consistent(db) && NotNull(db) && Aimed(db, target) && Closure(db, target, o)
  }

  // ----- One statement

  /** In a consistent database the row a column refers to is there. */
  lemma ParentPresent(db: Db, x: Ref, c: Column)
    requires Consistent(db) && x in db && c in db[x] && Parent(x.0, c).Some?
    ensures (Parent(x.0, c).value, db[x][c]) in db
  {
    assert PlainOk(db, x, c);
    assert Anchored(db, x) && CascadeOk(db, x, c);
  }

  /** cur is what is left of db while a script runs: only owned rows are gone,
      and all of them in the tables already handled. */
  ghost predicate Midway(db: Db, cur: Db, o: set<Ref>, handled: set<Table>) {
    && Consistent(cur) && cur.Keys <= db.Keys
    && (forall x | x in cur :: cur[x] == db[x])
    && (forall x {:trigger x in o} | x in db && x !in cur :: x in o)
    && (forall x {:trigger x in o} | x in cur && x.0 in handled :: x !in o)
  }

  /** A reference to a post is to a targeted one exactly when it is owned. */
  lemma PostReference(db: Db, target: Target, o: set<Ref>, x: Ref, c: Column)
    requires Consistent(db) && Closure(db, target, o) && x in db && c in db[x] && Plain(x.0, c) == Some(Posts)
    ensures (Posts, db[x][c]) in o <==> Hit(target, db[x][c])
    ensures Hit(target, db[x][c]) ==> x in o
  {
    ParentPresent(db, x, c);
    OwnedPost(db, target, o, db[x][c]);
    if Hit(target, db[x][c]) { OwnedDown(db, target, o, x, c); }
  }

  /** A row whose only parent is a post is owned exactly when that post is. */
  lemma OwnedDirect(db: Db, target: Target, o: set<Ref>, x: Ref)
    requires Consistent(db) && Closure(db, target, o) && x in db
    requires Plain(x.0, PostId) == Some(Posts) && forall c: Column | c != PostId :: Parent(x.0, c).None?
    ensures x in o <==> PostId in db[x] && Hit(target, db[x][PostId])
  {
    if PostId in db[x] { PostReference(db, target, o, x, PostId); }
    if x in o { var c := OwnedUp(db, target, o, x); }
  }

  /** The rule of an alert, or the key of an observation, is owned only when the
      row itself is filed under a targeted post. */
  lemma AlignedParent(db: Db, target: Target, o: set<Ref>, x: Ref, c: Column)
    requires Base(db, target, o) && x in db && c in db[x]
    requires (x.0.Alerts? && c == RuleId) || (x.0.Observations? && c == CollectorId)
    ensures (Parent(x.0, c).value, db[x][c]) in o ==> Hit(target, db[x][PostId])
  {
    ParentPresent(db, x, c);
    OwnedDirect(db, target, o, (Parent(x.0, c).value, db[x][c]));
  }

  /** Alerts and observations have two parents; alignment makes the post decide. */
  lemma OwnedAligned(db: Db, target: Target, o: set<Ref>, x: Ref)
    requires Base(db, target, o) && x in db
    requires x.0.Alerts? || x.0.Observations?
    ensures PostId in db[x] && (x in o <==> Hit(target, db[x][PostId]))
  {
    PostReference(db, target, o, x, PostId);
    if x in o {
      var c := OwnedUp(db, target, o, x);
      if c != PostId { AlignedParent(db, target, o, x, c); }
    }
  }

  /** Tables with one reference, to a table that is itself under posts. */
  predicate Below(t: Table, c: Column) {
    || ((t.NotificationDeliveries? || t.IncidentAlerts?) && c == AlertId)
    || (t.ConversationMessages? && c == ConversationId)
    || (t.DeviceProfileOids? && c == ProfileId)
  }

  lemma OwnedBelow(db: Db, target: Target, o: set<Ref>, x: Ref, c: Column)
    requires Closure(db, target, o) && x in db && Below(x.0, c)
    ensures x in o <==> c in db[x] && (Parent(x.0, c).value, db[x][c]) in o
  {
    if x in o { var d := OwnedUp(db, target, o, x); }
    if c in db[x] && (Parent(x.0, c).value, db[x][c]) in o { OwnedDown(db, target, o, x, c); }
  }

  lemma OwnedDependency(db: Db, target: Target, o: set<Ref>, x: Ref)
    requires Consistent(db) && Closure(db, target, o) && x in db && x.0.PostDependencies?
    ensures x in o <==>
            || (PostId in db[x] && Hit(target, db[x][PostId]))
            || (DependsOnId in db[x] && Hit(target, db[x][DependsOnId]))
  {
    if PostId in db[x] { PostReference(db, target, o, x, PostId); }
    if DependsOnId in db[x] { PostReference(db, target, o, x, DependsOnId); }
    if x in o { var c := OwnedUp(db, target, o, x); }
  }

  /** `post_id = ?` and `post_id IN (SELECT id FROM posts)` on a surviving row. */
  lemma OfPostsMatches(cur: Db, target: Target, x: Ref, c: Column)
    requires Consistent(cur) && x in cur && Plain(x.0, c) == Some(Posts)
    ensures Matches(cur, OfPosts(c, target), x) <==> c in cur[x] && Hit(target, cur[x][c])
  {
    if c in cur[x] { ParentPresent(cur, x, c); }
  }

  lemma VictimsBelow(db: Db, cur: Db, target: Target, o: set<Ref>, x: Ref, c: Column)
    requires Base(db, target, o) && Consistent(cur) && x in cur && x in db && cur[x] == db[x] && Below(x.0, c)
    requires forall y | y in cur :: y in db && cur[y] == db[y]
    ensures Matches(cur, In(c, Parent(x.0, c).value, OfPosts(PostId, target)), x) <==> x in o
  {
    OwnedBelow(db, target, o, x, c);
    if c in db[x] {
      var y := (Parent(x.0, c).value, db[x][c]);
      ParentPresent(cur, x, c);
      if c == AlertId {
        VictimsAligned(db, cur, target, o, y);
      } else {
        VictimsDirect(db, cur, target, o, y);
      }
    }
  }

  /** Tables deleted by `post_id` alone. */
  predicate ByPost(t: Table) {
    || t.Alerts? || t.Observations? || t.CollectorKeys? || t.CollectorPairingTokens? || t.Conversations?
    || t.ActionRequests? || t.DeviceProfiles? || t.Logs? || t.Changes?
  }

  lemma VictimsDirect(db: Db, cur: Db, target: Target, o: set<Ref>, x: Ref)
    requires Consistent(db) && Closure(db, target, o) && Consistent(cur) && x in cur && x in db && cur[x] == db[x]
    requires Plain(x.0, PostId) == Some(Posts) && forall c: Column | c != PostId :: Parent(x.0, c).None?
    ensures Matches(cur, OfPosts(PostId, target), x) <==> x in o
  {
    OwnedDirect(db, target, o, x);
    OfPostsMatches(cur, target, x, PostId);
  }

  lemma VictimsAligned(db: Db, cur: Db, target: Target, o: set<Ref>, x: Ref)
    requires Base(db, target, o) && Consistent(cur) && x in cur && x in db && cur[x] == db[x]
    requires x.0.Alerts? || x.0.Observations?
    ensures Matches(cur, OfPosts(PostId, target), x) <==> x in o
  {
    OwnedAligned(db, target, o, x);
    OfPostsMatches(cur, target, x, PostId);
  }

  lemma VictimsRules(db: Db, cur: Db, target: Target, o: set<Ref>, x: Ref)
    requires Base(db, target, o) && Consistent(cur) && x in cur && x in db && cur[x] == db[x] && x.0.Rules?
    ensures Matches(cur, StatementFor(Rules, target).where, x) <==> x in o
  {
    OwnedDirect(db, target, o, x);
    OfPostsMatches(cur, target, x, PostId);
  }

  lemma VictimsDependencies(db: Db, cur: Db, target: Target, o: set<Ref>, x: Ref)
    requires Consistent(db) && Closure(db, target, o) && Consistent(cur) && x in cur && x in db && cur[x] == db[x]
    requires x.0.PostDependencies?
    ensures Matches(cur, StatementFor(PostDependencies, target).where, x) <==> x in o
  {
    OwnedDependency(db, target, o, x);
    OfPostsMatches(cur, target, x, PostId);
    OfPostsMatches(cur, target, x, DependsOnId);
  }

  lemma VictimsPosts(db: Db, cur: Db, target: Target, o: set<Ref>, x: Ref)
    requires Base(db, target, o) && x in cur && x in db && cur[x] == db[x] && x.0.Posts?
    ensures Matches(cur, StatementFor(Posts, target).where, x) <==> x in o
  {
    OwnedPost(db, target, o, x.1);
  }

  lemma StatementByPost(t: Table, target: Target)
    ensures ByPost(t) ==> StatementFor(t, target).where == OfPosts(PostId, target)
    ensures forall c: Column | Below(t, c) ::
              StatementFor(t, target).where == In(c, Parent(t, c).value, OfPosts(PostId, target))
  {
  }

  /** The DELETE of each table removes exactly the owned rows still there. */
  lemma VictimsAreOwned(db: Db, cur: Db, target: Target, o: set<Ref>, handled: set<Table>, x: Ref)
    requires Base(db, target, o) && Midway(db, cur, o, handled)
    requires Deletable(x.0) && x in cur
    ensures Matches(cur, StatementFor(x.0, target).where, x) <==> x in o
  {
    hide Consistent, Closure, Matches, StatementFor, NotNull, Aimed;
    StatementByPost(x.0, target);
    if x.0.Posts? {
      VictimsPosts(db, cur, target, o, x);
    } else if x.0.PostDependencies? {
      VictimsDependencies(db, cur, target, o, x);
    } else if x.0.Rules? {
      VictimsRules(db, cur, target, o, x);
    } else if x.0.Alerts? || x.0.Observations? {
      VictimsAligned(db, cur, target, o, x);
    } else if ByPost(x.0) {
      VictimsDirect(db, cur, target, o, x);
    } else {
      var c := if x.0.ConversationMessages? then ConversationId else if x.0.DeviceProfileOids? then ProfileId
          else AlertId;
      VictimsBelow(db, cur, target, o, x, c);
    }
  }

  /** One round of cascading from a set of removed owned rows removes owned rows
      of cascading tables only. */
  lemma SweepOwned(db: Db, cur: Db, target: Target, o: set<Ref>, a: Db, x: Ref) returns (c: Column)
    requires Closure(db, target, o) && Consistent(cur) && x in cur && cur.Keys <= db.Keys
        && (forall y | y in cur :: cur[y] == db[y])
    requires a.Keys <= cur.Keys && (forall y | y in a :: a[y] == cur[y])
    requires forall y {:trigger y in o} | y in cur && y !in a :: y in o
    requires x in a && x !in Sweep(a)
    ensures x in o
    ensures c in a[x] && Cascading(x.0, c).Some? && (Cascading(x.0, c).value, a[x][c]) !in a
  {
    c :| !CascadeOk(a, x, c);
    ParentPresent(cur, x, c);
    assert Parent(x.0, c) == Cascading(x.0, c);
    assert Via(db, o, x, c);
    OwnedDown(db, target, o, x, c);
  }

  predicate CascadingTable(t: Table) {
    exists c :: Cascading(t, c).Some?
  }

  /** The second round only reaches check results, whose table nothing refers to. */
  lemma SecondRound(a: Db, x: Ref, c: Column)
    requires x in Sweep(a) && c in a[x] && Cascading(x.0, c).Some?
    requires (Cascading(x.0, c).value, a[x][c]) !in Sweep(a)
    ensures (Cascading(x.0, c).value, a[x][c]) in a && (CascadingTable(Cascading(x.0, c).value) ==> x.0.CheckResults?)
  {
    assert Anchored(a, x) && CascadeOk(a, x, c);
  }

  lemma SweptAnchored(a: Db, after: Db)
    requires after == Sweep(Sweep(a))
    requires forall y {:trigger y in Sweep(a)} | y in a && y !in Sweep(a) :: CascadingTable(y.0)
    requires forall y {:trigger y in after} | y in Sweep(a) && y !in after :: y.0.CheckResults?
    ensures forall x {:trigger Anchored(after, x)} | x in after :: Anchored(after, x)
  {
    forall x | x in after ensures Anchored(after, x) {
      forall c: Column ensures CascadeOk(after, x, c) {
        assert Anchored(Sweep(a), x) && CascadeOk(Sweep(a), x, c);
      }
    }
  }

  lemma CascadeOwned(db: Db, cur: Db, target: Target, o: set<Ref>, handled: set<Table>, victims: set<Ref>)
    requires Consistent(db) && Closure(db, target, o) && Midway(db, cur, o, handled)
    requires forall x | x in victims :: x in o
    ensures
      var after := Sweep(Sweep(cur - victims));
      && (forall x {:trigger x in after} | x in cur && x !in victims && x !in after ::
            x in o && CascadingTable(x.0))
      && (forall x {:trigger Anchored(after, x)} | x in after :: Anchored(after, x))
  {
    var a := cur - victims;
    var b := Sweep(a);
    var after := Sweep(b);
    forall x | x in a && x !in b ensures x in o && CascadingTable(x.0) {
      var c := SweepOwned(db, cur, target, o, a, x);
    }
    assert Cascading(CheckResults, ScheduleId).Some?;
    forall x | x in b && x !in after ensures x in o && x.0.CheckResults? {
      var c := SweepOwned(db, cur, target, o, b, x);
      SecondRound(a, x, c);
    }
    SweptAnchored(a, after);
  }

  /** No plain reference is broken when the children of the victims' table are
      handled: what refers to an owned row is owned, and already gone. */
  lemma PlainStillHold(db: Db, cur: Db, target: Target, o: set<Ref>, handled: set<Table>, t: Table, victims: set<Ref>,
                       after: Db)
    requires Consistent(db) && Closure(db, target, o) && Midway(db, cur, o, handled)
    requires forall u: Table, c: Column | Plain(u, c) == Some(t) :: u in handled
    requires forall x | x in victims :: x.0 == t && x in o
    requires after.Keys <= cur.Keys && forall x | x in after :: after[x] == cur[x]
    requires forall x {:trigger x in after} | x in cur && x !in victims && x !in after :: CascadingTable(x.0)
    ensures PlainHold(after)
  {
    forall x, c: Column | x in after ensures PlainOk(after, x, c) {
      if c in after[x] && Plain(x.0, c).Some? {
        var y := (Plain(x.0, c).value, after[x][c]);
        ParentPresent(cur, x, c);
        if y in victims {
          assert Via(db, o, x, c);
          OwnedDown(db, target, o, x, c);
          assert false;
        }
        assert !CascadingTable(y.0);
      }
    }
  }

  /** A statement whose non-cascading children are handled goes through, and
      then its own table is handled too. */
  lemma StatementGoesThrough(db: Db, cur: Db, target: Target, o: set<Ref>, handled: set<Table>, t: Table)
    requires Base(db, target, o) && Midway(db, cur, o, handled)
    requires Deletable(t) && forall u: Table, c: Column | Plain(u, c) == Some(t) :: u in handled
    ensures Execute(cur, StatementFor(t, target)).Some?
    ensures Midway(db, Execute(cur, StatementFor(t, target)).value, o, handled + {t})
  {
    var victims := Victims(cur, StatementFor(t, target));
    forall x | x in cur && x.0 == t ensures x in victims <==> x in o {
      VictimsAreOwned(db, cur, target, o, handled, x);
    }
    CascadeOwned(db, cur, target, o, handled, victims);
    var after := Sweep(Sweep(cur - victims));
    PlainStillHold(db, cur, target, o, handled, t, victims, after);
  }

  // ----- Whole scripts

  lemma {:induction false} OwnedAllGone(db: Db, cur: Db, target: Target, o: set<Ref>, handled: set<Table>, x: Ref)
    requires Closure(db, target, o) && Midway(db, cur, o, handled) && Posts in handled
    ensures x in cur ==> x !in o
    decreases Rank(x.0)
  {
    if x in cur && x in o && !x.0.Posts? {
      var c := OwnedUp(db, target, o, x);
      var y := (Parent(x.0, c).value, db[x][c]);
      ParentPresent(cur, x, c);
      OwnedAllGone(db, cur, target, o, handled, y);
    }
  }

  function Handled(order: seq<Table>, i: nat): set<Table>
    requires i <= |order|
  {
    set t | t in order[..i]
  }

  lemma RunStep(cur: Db, target: Target, order: seq<Table>)
    requires order != [] && Execute(cur, StatementFor(order[0], target)).Some?
    ensures RunAll(cur, Script(order, target)) ==
            RunAll(Execute(cur, StatementFor(order[0], target)).value, Script(order[1..], target))
  {
    assert Script(order, target)[1..] == Script(order[1..], target);
  }

  lemma {:induction false} ScriptGoesThrough(db: Db, cur: Db, target: Target, o: set<Ref>, order: seq<Table>, i: nat)
    requires Base(db, target, o) && ChildrenFirst(order) && i <= |order|
    requires o == OwnedRows(db, target) && Midway(db, cur, o, Handled(order, i))
    ensures RunAll(cur, Script(order[i..], target)) == Some(Without(db, target))
    decreases |order| - i
  {
    var handled := Handled(order, i);
    if i == |order| {
      assert order[..i] == order;
      forall x | x in db ensures x in cur <==> !Owned(db, target, x) {
        assert x in o <==> Owned(db, target, x);
        OwnedAllGone(db, cur, target, o, handled, x);
      }
      assert cur == Without(db, target);
    } else {
      StatementGoesThrough(db, cur, target, o, handled, order[i]);
      var next := Execute(cur, StatementFor(order[i], target)).value;
      assert order[..i + 1] == order[..i] + [order[i]];
      assert handled + {order[i]} == Handled(order, i + 1);
      ScriptGoesThrough(db, next, target, o, order, i + 1);
      assert order[i..][1..] == order[i + 1..];
      RunStep(cur, target, order[i..]);
    }
  }

  /** One statement never touches a row of these tables filed under another post. */
  lemma {:induction false} Survives(cur: Db, p: Key, order: seq<Table>, x: Ref)
    requires x in cur && (x.0.Alerts? || x.0.Observations?) && PostOf(cur, x) != Some(p)
    requires RunAll(cur, Script(order, One(p))).Some?
    ensures x in RunAll(cur, Script(order, One(p))).value && RunAll(cur, Script(order, One(p))).value[x] == cur[x]
    decreases |order|
  {
    if order != [] {
      var st := StatementFor(order[0], One(p));
      assert Script(order, One(p))[0] == st && Script(order, One(p))[1..] == Script(order[1..], One(p));
      assert x !in Victims(cur, st);
      Survives(Execute(cur, st).value, p, order[1..], x);
    }
  }

  /** A handled table keeps no row of the post, and rows never come back. */
  lemma {:induction false} HandledGone(cur: Db, p: Key, order: seq<Table>, y: Ref)
    requires y.0.Rules? || y.0.CollectorKeys?
    requires RunAll(cur, Script(order, One(p))).Some?
    requires y in cur ==> y.0 in order && PostOf(cur, y) == Some(p)
    ensures y !in RunAll(cur, Script(order, One(p))).value
    decreases |order|
  {
    if order != [] {
      var st := StatementFor(order[0], One(p));
      assert Script(order, One(p))[0] == st && Script(order, One(p))[1..] == Script(order[1..], One(p));
      var next := Execute(cur, st).value;
      if order[0] == y.0 && y in cur { assert y in Victims(cur, st); }
      HandledGone(next, p, order[1..], y);
    }
  }

  lemma {:induction false} RunKeepsConsistent(cur: Db, script: seq<Statement>)
    requires Consistent(cur) && RunAll(cur, script).Some?
    ensures Consistent(RunAll(cur, script).value)
    decreases |script|
  {
    if script != [] { RunKeepsConsistent(Execute(cur, script[0]).value, script[1..]); }
  }

  lemma MisalignedBlocks(db: Db, p: Key, order: seq<Table>, x: Ref, y: Ref)
    requires Consistent(db) && y.0 in order && x in db && PostOf(db, x) != Some(p) && PostOf(db, y) == Some(p)
    requires
      || (x.0.Alerts? && RuleId in db[x] && y == (Rules, db[x][RuleId]))
      || (x.0.Observations? && CollectorId in db[x] && y == (CollectorKeys, db[x][CollectorId]))
    ensures RunAll(db, Script(order, One(p))).None?
  {
    if RunAll(db, Script(order, One(p))).Some? {
      var left := RunAll(db, Script(order, One(p))).value;
      assert y !in left by { HandledGone(db, p, order, y); }
      assert x in left && left[x] == db[x] by { Survives(db, p, order, x); }
      assert Consistent(left) by { RunKeepsConsistent(db, Script(order, One(p))); }
      ParentPresent(left, x, if x.0.Alerts? then RuleId else CollectorId);
      assert false;
    }
  }

  /** Referential safety, exactly. From a consistent database, every children
      first order of the statements deletes a post without violating a reference
      after any single statement exactly when the database is aligned for that
      post; then what is gone is the post and everything that refers to it,
      directly or through other rows, and nothing else. */
  lemma DeletionExact(db: Db, p: Key, order: seq<Table>)
    requires Consistent(db) && NotNull(db) && ChildrenFirst(order)
    ensures RunAll(db, Script(order, One(p))).Some? <==> Aligned(db, p)
    ensures Aligned(db, p) ==> RunAll(db, Script(order, One(p))) == Some(Without(db, One(p)))
  {
    var last := |order| - 1;
    assert Plain(Rules, PostId) == Some(order[last]) && Plain(CollectorKeys, PostId) == Some(order[last]);
    if Aligned(db, p) {
      assert order[0..] == order;
      var o := OwnedRows(db, One(p));
      OwnedRowsClosure(db, One(p));
      assert Midway(db, db, o, Handled(order, 0));
      ScriptGoesThrough(db, db, One(p), o, order, 0);
    } else if x :| x in db && x.0.Alerts? && RuleId in db[x] && PostOf(db, (Rules, db[x][RuleId])) == Some(p)
                   && PostOf(db, x) != Some(p) {
      MisalignedBlocks(db, p, order, x, (Rules, db[x][RuleId]));
    } else {
      var x :| x in db && x.0.Observations? && CollectorId in db[x]
               && PostOf(db, (CollectorKeys, db[x][CollectorId])) == Some(p) && PostOf(db, x) != Some(p);
      MisalignedBlocks(db, p, order, x, (CollectorKeys, db[x][CollectorId]));
    }
  }

  /** A consistent database that is not aligned: an observation of a collector of
      one post is filed under another. That collector's post cannot be deleted, in
      any order of the statements; the other one can. */
  lemma MisalignedExample(order: seq<Table>)
    requires ChildrenFirst(order)
    ensures
      var db: Db := map[(Posts, "p") := map[], (Posts, "q") := map[], (CollectorKeys, "c") := map[PostId := "p"],
                        (Observations, "o") := map[PostId := "q", CollectorId := "c"]];
      && Consistent(db) && NotNull(db) && !Aligned(db, "p")
      && RunAll(db, Script(order, One("p"))).None? && RunAll(db, Script(order, One("q"))).Some?
  {
    var db: Db := map[(Posts, "p") := map[], (Posts, "q") := map[], (CollectorKeys, "c") := map[PostId := "p"],
                      (Observations, "o") := map[PostId := "q", CollectorId := "c"]];
    assert PostOf(db, (CollectorKeys, "c")) == Some("p") && PostOf(db, (Observations, "o")) == Some("q");
    assert !ObservationsAligned(db, "p") && Aligned(db, "q");
    forall x, c: Column | x in db ensures PlainOk(db, x, c) && CascadeOk(db, x, c) {}
    DeletionExact(db, "p", order);
    DeletionExact(db, "q", order);
  }

  /** Clearing every post before a snapshot needs no alignment. */
  lemma ClearExact(db: Db, order: seq<Table>)
    requires Consistent(db) && NotNull(db) && ChildrenFirst(order)
    ensures RunAll(db, Script(order, Every)) == Some(Without(db, Every))
  {
    assert order[0..] == order;
    var o := OwnedRows(db, Every);
    OwnedRowsClosure(db, Every);
    assert Midway(db, db, o, Handled(order, 0));
    ScriptGoesThrough(db, db, Every, o, order, 0);
  }

  /** Nothing that is left names the post. */
  lemma NothingPointsAtDeleted(db: Db, p: Key, x: Ref, c: Column)
    requires Consistent(db) && x in Without(db, One(p)) && c in db[x] && Parent(x.0, c) == Some(Posts)
    ensures db[x][c] != p
  {
    ParentPresent(db, x, c);
    OwnedRowsClosure(db, One(p));
    OwnedPost(db, One(p), OwnedRows(db, One(p)), db[x][c]);
    if db[x][c] == p { OwnedDown(db, One(p), OwnedRows(db, One(p)), x, c); }
  }

  /** The three orders written in the program are children first. */
  lemma ProgramOrders()
    ensures ChildrenFirst(REPLICATED_ORDER) && ChildrenFirst(STANDALONE_ORDER) && ChildrenFirst(CLEAR_ORDER)
  {
    ReplicatedOrder();
    StandaloneOrder();
    ClearOrder();
  }

  /** Where each table stands in the replicated, standalone and clearing order. */
  function Place(t: Table): (nat, nat, nat) {
    match t
    case ConversationMessages => (0, 0, 4)
    case Conversations => (1, 1, 5)
    case ActionRequests => (2, 2, 6)
    case DeviceProfiles => (4, 4, 8)
    case NotificationDeliveries => (5, 5, 0)
    case IncidentAlerts => (6, 6, 1)
    case Alerts => (7, 7, 2)
    case Observations => (8, 9, 3)
    case CollectorPairingTokens => (9, 10, 9)
    case CollectorKeys => (10, 11, 10)
    case Logs => (11, 12, 11)
    case Changes => (12, 13, 12)
    case PostDependencies => (13, 14, 13)
    case Rules => (14, 8, 14)
    case Posts => (15, 15, 15)
    case _ => (3, 3, 7)
  }

  lemma ReplicatedOrder()
    ensures ChildrenFirst(REPLICATED_ORDER)
  {
    var order := REPLICATED_ORDER;
    forall i, t: Table, c: Column | 0 <= i < |order| && Plain(t, c) == Some(order[i]) ensures t in order[..i] {
      var j := Place(t).0;
      assert order[j] == t && j < i;
      assert order[..i][j] == t;
    }
  }

  lemma StandaloneOrder()
    ensures ChildrenFirst(STANDALONE_ORDER)
  {
    var order := STANDALONE_ORDER;
    forall i, t: Table, c: Column | 0 <= i < |order| && Plain(t, c) == Some(order[i]) ensures t in order[..i] {
      var j := Place(t).1;
      assert order[j] == t && j < i;
      assert order[..i][j] == t;
    }
  }

  lemma ClearOrder()
    ensures ChildrenFirst(CLEAR_ORDER)
  {
    var order := CLEAR_ORDER;
    forall i, t: Table, c: Column | 0 <= i < |order| && Plain(t, c) == Some(order[i]) ensures t in order[..i] {
      var j := Place(t).2;
      assert order[j] == t && j < i;
      assert order[..i][j] == t;
    }
  }

  // ----- The statement loops

  lemma {:induction false} RunSplit(db: Db, a: seq<Statement>, b: seq<Statement>)
    ensures RunAll(db, a + b) == if RunAll(db, a).None? then None else RunAll(RunAll(db, a).value, b)
  {
    if a == [] {
      assert a + b == b;
    } else {
      assert (a + b)[1..] == a[1..] + b;
      if Execute(db, a[0]).Some? { RunSplit(Execute(db, a[0]).value, a[1..], b); }
    }
  }

  lemma {:induction false} ScriptSplit(order: seq<Table>, target: Target)
    requires order != []
    ensures Script(order, target) ==
            Script(order[..|order| - 1], target) + [StatementFor(order[|order| - 1], target)]
  {
    if |order| > 1 {
      ScriptSplit(order[1..], target);
      assert order[1..][..|order| - 2] == order[..|order| - 1][1..];
    }
  }

  lemma StatementTable(t: Table, target: Target)
    ensures StatementFor(t, target).table == t
  {
  }

  lemma StatementKeepsPosts(db: Db, st: Statement, p: Key)
    requires !st.table.Posts? && Execute(db, st).Some?
    ensures (Posts, p) in Execute(db, st).value <==> (Posts, p) in db
  {
    if (Posts, p) in db {
      var a := db - Victims(db, st);
      assert (Posts, p) in a && Anchored(a, (Posts, p));
      assert Anchored(Sweep(a), (Posts, p));
    }
  }

  /** Statements on other tables neither delete posts nor create them. */
  lemma {:induction false} ChildrenKeepPosts(db: Db, order: seq<Table>, p: Key)
    requires Posts !in order && RunAll(db, Script(order, One(p))).Some?
    ensures (Posts, p) in RunAll(db, Script(order, One(p))).value <==> (Posts, p) in db
    decreases |order|
  {
    hide Execute, StatementFor;
    if order != [] {
      var st := StatementFor(order[0], One(p));
      assert Script(order, One(p))[0] == st && Script(order, One(p))[1..] == Script(order[1..], One(p));
      var next := Execute(db, st).value;
      StatementTable(order[0], One(p));
      StatementKeepsPosts(db, st, p);
      ChildrenKeepPosts(next, order[1..], p);
    }
  }

  /** The last statement affects one post, or none if there is none. */
  lemma OnePostAffected(db: Db, p: Key)
    ensures |Victims(db, StatementFor(Posts, One(p)))| == if (Posts, p) in db then 1 else 0
  {
    assert Victims(db, StatementFor(Posts, One(p))) == if (Posts, p) in db then {(Posts, p)} else {};
  }

  /** One connection: each script runs in a transaction. */
  class Connection {
    var rows: Db

    constructor (rows: Db)
      ensures this.rows == rows
    {
      this.rows := rows;
    }

    /** One statement, and how many rows it affected itself. */
    method Exec(st: Statement) returns (ok: bool, affected: nat)
      modifies this
      ensures ok <==> old(Execute(rows, st)).Some?
      ensures rows == if ok then old(Execute(rows, st)).value else old(rows)
      ensures affected == old(|Victims(rows, st)|)
    {
      var next := Execute(rows, st);
      affected := |Victims(rows, st)|;
      if next.None? { return false, affected; }
      rows := next.value;
      return true, affected;
    }

    /** Executes the statements in order; the first violation rolls back. */
    method RunScript(script: seq<Statement>) returns (ok: bool)
      modifies this
      ensures ok <==> old(RunAll(rows, script)).Some?
      ensures rows == if ok then old(RunAll(rows, script)).value else old(rows)
    {
      var before := rows;
      for i := 0 to |script|
        invariant RunAll(before, script) == RunAll(rows, script[i..])
      {
        assert script[i..][1..] == script[i + 1..];
        var done, _ := Exec(script[i]);
        if !done {
          rows := before;
          return false;
        }
      }
      return true;
    }

    /** Both phases of the replicated post deletion. The last statement has to
        affect the post; otherwise everything is rolled back. */
    method DeletePost(p: Key) returns (ok: bool)
      requires Consistent(rows) && NotNull(rows)
      modifies this
      ensures ok <==> old((Posts, p) in rows && Aligned(rows, p))
      ensures rows == if ok then old(Without(rows, One(p))) else old(rows)
    {
      ReplicatedOrder();
      DeletionExact(rows, p, REPLICATED_ORDER);
      var before, last := rows, |REPLICATED_ORDER| - 1;
      var children := Script(REPLICATED_ORDER[..last], One(p));
      ScriptSplit(REPLICATED_ORDER, One(p));
      RunSplit(rows, children, [StatementFor(Posts, One(p))]);
      ok := RunScript(children);
      if !ok { return; }
      ChildrenKeepPosts(before, REPLICATED_ORDER[..last], p);
      OnePostAffected(rows, p);
      var affected;
      ok, affected := Exec(StatementFor(Posts, One(p)));
      if !ok || affected != 1 {
        rows := before;
        ok := false;
      }
    }

    /** The standalone deletion looks the post up first, and issues the same
        statements in another order. */
    method DeletePostStandalone(p: Key) returns (ok: bool)
      requires Consistent(rows) && NotNull(rows)
      modifies this
      ensures ok <==> old((Posts, p) in rows && Aligned(rows, p))
      ensures rows == if ok then old(Without(rows, One(p))) else old(rows)
    {
      if (Posts, p) !in rows { return false; }
      StandaloneOrder();
      DeletionExact(rows, p, STANDALONE_ORDER);
      ok := RunScript(Script(STANDALONE_ORDER, One(p)));
    }

    method ClearReplicated() returns (ok: bool)
      requires Consistent(rows) && NotNull(rows)
      modifies this
      ensures ok && rows == old(Without(rows, Every))
    {
      ClearOrder();
      ClearExact(rows, CLEAR_ORDER);
      ok := RunScript(Script(CLEAR_ORDER, Every));
    }
  }
}

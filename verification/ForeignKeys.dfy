/** The foreign-key web around posts: ordered DELETE statements, SQLite's
    immediate reference checks and cascades, and when a deletion goes through. */
module ForeignKeys {
  import opened Outcomes

  type Key = string

  datatype Table =
    | Posts | PostDependencies | Rules | Alerts | NotificationDeliveries | IncidentAlerts
    | CollectorKeys | Observations | CollectorPairingTokens
    | Conversations | ConversationMessages | ConversationEvidence | ActionRequests
    | DeviceProfiles | DeviceProfileOids | Logs | Changes
    | AgentPairingRequests | AgentConnections | CheckSchedules | CheckResults

  datatype Column = PostId | DependsOnId | RuleId | AlertId | CollectorId | ConversationId | MessageId | ProfileId
      | ScheduleId

  /** The table that column of t refers to without cascading. */
  function Plain(t: Table, c: Column): Option<Table> {
    match c
    case PostId =>
      (match t
       case PostDependencies => Some(Posts)
       case Rules => Some(Posts)
       case Alerts => Some(Posts)
       case CollectorKeys => Some(Posts)
       case Observations => Some(Posts)
       case CollectorPairingTokens => Some(Posts)
       case Conversations => Some(Posts)
       case ActionRequests => Some(Posts)
       case DeviceProfiles => Some(Posts)
       case Logs => Some(Posts)
       case Changes => Some(Posts)
       case _ => None)
    case DependsOnId => if t.PostDependencies? then Some(Posts) else None
    case RuleId => if t.Alerts? then Some(Rules) else None
    case AlertId => if t.NotificationDeliveries? || t.IncidentAlerts? then Some(Alerts) else None
    case CollectorId => if t.Observations? then Some(CollectorKeys) else None
    case ConversationId => if t.ConversationMessages? then Some(Conversations) else None
    case _ => None
  }

  /** The table that column of t refers to with ON DELETE CASCADE. */
  function Cascading(t: Table, c: Column): Option<Table> {
    match c
    case PostId => if t.AgentPairingRequests? || t.AgentConnections? || t.CheckSchedules? then Some(Posts) else None
    case ConversationId => if t.ConversationEvidence? then Some(Conversations) else None
    case MessageId => if t.ConversationEvidence? then Some(ConversationMessages) else None
    case ProfileId => if t.DeviceProfileOids? then Some(DeviceProfiles) else None
    case ScheduleId => if t.CheckResults? then Some(CheckSchedules) else None
    case _ => None
  }

  /** A row keeps the columns that are not NULL; a database is all its rows. */
  type Row = map<Column, Key>
  type Ref = (Table, Key)
  type Db = map<Ref, Row>

  /** Column c of row x refers to no missing row, cascading or not. */
  predicate PlainOk(db: Db, x: Ref, c: Column)
    requires x in db
  {
    c in db[x] && Plain(x.0, c).Some? ==> (Plain(x.0, c).value, db[x][c]) in db
  }

  predicate CascadeOk(db: Db, x: Ref, c: Column)
    requires x in db
  {
    c in db[x] && Cascading(x.0, c).Some? ==> (Cascading(x.0, c).value, db[x][c]) in db
  }

  predicate PlainHold(db: Db) {
    forall x, c: Column {:trigger PlainOk(db, x, c)} | x in db :: PlainOk(db, x, c)
  }

  /** x refers to no missing row through a cascading column. */
  predicate Anchored(db: Db, x: Ref)
    requires x in db
  {
    forall c: Column :: CascadeOk(db, x, c)
  }

  predicate Consistent(db: Db) {
    PlainHold(db) && forall x {:trigger Anchored(db, x)} | x in db :: Anchored(db, x)
  }

  /** The NOT NULL columns the deletions rely on. */
  predicate NotNull(db: Db) {
    && (forall x | x in db && x.0 in {Rules, Alerts, CollectorKeys, Observations, PostDependencies} :: PostId in db[x])
    && (forall x | x in db && x.0.Alerts? :: RuleId in db[x])
    && (forall x | x in db && x.0.Observations? :: CollectorId in db[x])
  }

  // ----- Statements

  datatype Condition =
    | Everything
    | IdIs(key: Key)
    | Is(column: Column, key: Key)
    | In(column: Column, table: Table, inner: Condition)
    | Or(left: Condition, right: Condition)

  datatype Statement = Delete(table: Table, where: Condition)

  predicate Matches(db: Db, c: Condition, x: Ref)
    requires x in db
  {
    match c
    case Everything => true
    case IdIs(k) => x.1 == k
    case Is(col, k) => col in db[x] && db[x][col] == k
    case In(col, t, inner) => col in db[x] && (t, db[x][col]) in db && Matches(db, inner, (t, db[x][col]))
    case Or(l, r) => Matches(db, l, x) || Matches(db, r, x)
  }

  function Victims(db: Db, st: Statement): set<Ref> {
    set x | x in db && x.0 == st.table && Matches(db, st.where, x)
  }

  /** Rows left dangling through a cascading reference go too; two rounds reach
      the end of the longest cascade (post, schedule, result). */
  function Sweep(db: Db): Db {
    map x | x in db && Anchored(db, x) :: db[x]
  }

  /** One DELETE: remove, cascade, then check every reference. */
  function Execute(db: Db, st: Statement): Option<Db> {
    var after := Sweep(Sweep(db - Victims(db, st)));
    if Consistent(after) then Some(after) else None
  }

  /** Statements in order, stopping at the first violated reference. */
  function RunAll(db: Db, script: seq<Statement>): Option<Db> {
    if script == [] then Some(db)
    else
      var next := Execute(db, script[0]);
      if next.None? then None else RunAll(next.value, script[1..])
  }

  // ----- The scripts of the program

  /** Deleting one post, or replacing them all by a snapshot. */
  datatype Target = One(post: Key) | Every

  function OfPosts(col: Column, target: Target): Condition {
    match target case One(p) => Is(col, p) case Every => In(col, Posts, Everything)
  }

  /** The DELETE issued against each table. */
  function StatementFor(t: Table, target: Target): Statement {
    Delete(t, match t
              case Posts => (match target case One(p) => IdIs(p) case Every => Everything)
              case Rules => if target.Every? then Everything else OfPosts(PostId, target)
              case PostDependencies => Or(OfPosts(PostId, target), OfPosts(DependsOnId, target))
              case ConversationMessages => In(ConversationId, Conversations, OfPosts(PostId, target))
              case DeviceProfileOids => In(ProfileId, DeviceProfiles, OfPosts(PostId, target))
              case NotificationDeliveries => In(AlertId, Alerts, OfPosts(PostId, target))
              case IncidentAlerts => In(AlertId, Alerts, OfPosts(PostId, target))
              case _ => OfPosts(PostId, target))
  }

  function Script(order: seq<Table>, target: Target): seq<Statement>
    ensures |Script(order, target)| == |order|
  {
    if order == [] then [] else [StatementFor(order[0], target)] + Script(order[1..], target)
  }

  /** Phase 1 and phase 2 of the replicated post deletion. */
  const REPLICATED_ORDER: seq<Table> := [
    ConversationMessages, Conversations, ActionRequests, DeviceProfileOids, DeviceProfiles, NotificationDeliveries,
    IncidentAlerts, Alerts, Observations, CollectorPairingTokens, CollectorKeys, Logs, Changes,
    PostDependencies, Rules, Posts]

  /** The standalone post deletion. */
  const STANDALONE_ORDER: seq<Table> := [
    ConversationMessages, Conversations, ActionRequests, DeviceProfileOids, DeviceProfiles, NotificationDeliveries,
    IncidentAlerts, Alerts, Rules, Observations, CollectorPairingTokens, CollectorKeys, Logs, Changes,
    PostDependencies, Posts]

  /** Clearing everything before a snapshot is installed. */
  const CLEAR_ORDER: seq<Table> := [
    NotificationDeliveries, IncidentAlerts, Alerts, Observations, ConversationMessages, Conversations, ActionRequests,
    DeviceProfileOids, DeviceProfiles, CollectorPairingTokens, CollectorKeys, Logs, Changes,
    PostDependencies, Rules, Posts]

  /** Tables whose own statement is part of a script; the others only cascade. */
  predicate Deletable(t: Table) {
    !t.ConversationEvidence? && !t.AgentPairingRequests? && !t.AgentConnections? && !t.CheckSchedules?
        && !t.CheckResults?
  }

  /** Every table comes after all tables that refer to it without cascading,
      and posts come last. */
  predicate ChildrenFirst(order: seq<Table>) {
    && order != [] && order[|order| - 1] == Posts
    && (forall t | t in order :: Deletable(t))
    && (forall i, t: Table, c: Column | 0 <= i < |order| && Plain(t, c) == Some(order[i]) :: t in order[..i])
  }
}

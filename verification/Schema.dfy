/** The tables, columns and edges that the account queries work on, as data. */
module Schema {
  datatype Entity = Account | AccountGroup | Group | Proxy | UsageLog

  /** A column name. `Other` stands for every name outside the generated constants, such as an
      alias that a query modifier selects. */
  datatype Column =
    | Id | CreatedAt | UpdatedAt | DeletedAt | Name | Notes | Platform | Type | Credentials | Extra
    | ProxyId | ProxyFallbackOriginId | Concurrency | LoadFactor | Priority | RateMultiplier | Status
    | ErrorMessage | LastUsedAt | ExpiresAt | AutoPauseOnExpired | Schedulable | RateLimitedAt
    | RateLimitResetAt | OverloadUntil | TempUnschedulableUntil | TempUnschedulableReason
    | SessionWindowStart | SessionWindowEnd | SessionWindowStatus | ParentAccountId | QuotaDimension
    | AccountId | GroupId
    | Other(name: string)

  /** What a database cell holds. Times are instants; a JSON document is an opaque non-empty text. */
  datatype Value =
    | Null
    | IntV(i: int)
    | FloatV(r: real)
    | BoolV(b: bool)
    | TextV(s: string)
    | TimeV(t: int)
    | JsonV(doc: string)

  type Row = map<Column, Value>

  datatype Kind = IntKind | FloatKind | BoolKind | TextKind | TimeKind | JsonKind | UnknownKind

  /** The Go type a column is scanned into. */
  function KindOf(c: Column): Kind {
    match c
    case Credentials | Extra => JsonKind
    case AutoPauseOnExpired | Schedulable => BoolKind
    case RateMultiplier => FloatKind
    case Id | ProxyId | ProxyFallbackOriginId | Concurrency | LoadFactor | Priority | ParentAccountId => IntKind
    case AccountId | GroupId => IntKind
    case Name | Notes | Platform | Type | Status | ErrorMessage | TempUnschedulableReason
      | SessionWindowStatus | QuotaDimension => TextKind
    case CreatedAt | UpdatedAt | DeletedAt | LastUsedAt | ExpiresAt | RateLimitedAt | RateLimitResetAt
      | OverloadUntil | TempUnschedulableUntil | SessionWindowStart | SessionWindowEnd => TimeKind
    case Other(_) => UnknownKind
  }

  predicate HasKind(v: Value, k: Kind) {
    match v
    case Null => true
    case IntV(_) => k.IntKind?
    case FloatV(_) => k.FloatKind?
    case BoolV(_) => k.BoolKind?
    case TextV(_) => k.TextKind?
    case TimeV(_) => k.TimeKind?
    case JsonV(doc) => k.JsonKind? && doc != ""
  }

  predicate AccountHas(c: Column) {
    !c.Other? && !c.AccountId? && !c.GroupId?
  }

  /** The columns of Account, in declaration order. */
  function AccountColumn(i: nat): (c: Column)
    requires i < 32
    ensures AccountHas(c) && (c == Id <==> i == 0)
  {
    match i
    case 0 => Id case 1 => CreatedAt case 2 => UpdatedAt case 3 => DeletedAt case 4 => Name
    case 5 => Notes case 6 => Platform case 7 => Type case 8 => Credentials case 9 => Extra
    case 10 => ProxyId case 11 => ProxyFallbackOriginId case 12 => Concurrency case 13 => LoadFactor
    case 14 => Priority case 15 => RateMultiplier case 16 => Status case 17 => ErrorMessage
    case 18 => LastUsedAt case 19 => ExpiresAt case 20 => AutoPauseOnExpired case 21 => Schedulable
    case 22 => RateLimitedAt case 23 => RateLimitResetAt case 24 => OverloadUntil
    case 25 => TempUnschedulableUntil case 26 => TempUnschedulableReason
    case 27 => SessionWindowStart case 28 => SessionWindowEnd case 29 => SessionWindowStatus
    case 30 => ParentAccountId case 31 => QuotaDimension
  }

  /** Where a column stands in that order. */
  function AccountIndex(c: Column): (i: nat)
    requires AccountHas(c)
    ensures i < 32 && AccountColumn(i) == c
  {
    match c
    case Id => 0 case CreatedAt => 1 case UpdatedAt => 2 case DeletedAt => 3 case Name => 4
    case Notes => 5 case Platform => 6 case Type => 7 case Credentials => 8 case Extra => 9
    case ProxyId => 10 case ProxyFallbackOriginId => 11 case Concurrency => 12 case LoadFactor => 13
    case Priority => 14 case RateMultiplier => 15 case Status => 16 case ErrorMessage => 17
    case LastUsedAt => 18 case ExpiresAt => 19 case AutoPauseOnExpired => 20 case Schedulable => 21
    case RateLimitedAt => 22 case RateLimitResetAt => 23 case OverloadUntil => 24
    case TempUnschedulableUntil => 25 case TempUnschedulableReason => 26
    case SessionWindowStart => 27 case SessionWindowEnd => 28 case SessionWindowStatus => 29
    case ParentAccountId => 30 case QuotaDimension => 31
  }

  /** The `Columns` list of each generated entity package, in declaration order. */
  function Columns(entity: Entity): seq<Column> {
    match entity
    case Account => seq(32, i requires 0 <= i < 32 => AccountColumn(i))
    case AccountGroup => [AccountId, GroupId, Priority, CreatedAt]
    case Group => [Id, CreatedAt, UpdatedAt, DeletedAt, Name, Status, Platform]
    case Proxy => [Id, CreatedAt, UpdatedAt, DeletedAt, Name, Status, ExpiresAt]
    case UsageLog => [Id, AccountId, RateMultiplier, CreatedAt]
  }

  /** `ValidColumn` of each generated entity package. */
  predicate ValidColumn(entity: Entity, c: Column) {
    if entity.Account? then AccountHas(c) else c in Columns(entity)
  }

  /** AccountGroup is keyed by (account_id, group_id); every other entity has its own id. */
  predicate HasId(entity: Entity) {
    !entity.AccountGroup?
  }

  /** Key columns that the schema declares NOT NULL. */
  predicate NotNull(c: Column) {
    c.Id? || c.AccountId? || c.GroupId?
  }

  datatype Edge =
    | Groups | ProxyEdge | Parent | Children | UsageLogs | AccountGroups   // of Account
    | LinkAccount | LinkGroup                                             // of AccountGroup
    | GroupAccounts | GroupLinks                                          // of Group
    | ProxyAccounts                                                       // of Proxy
    | UsageLogAccount                                                     // of UsageLog

  datatype Relation = ManyToMany | ManyToOne | OneToMany

  function Owner(e: Edge): Entity {
    match e
    case Groups | ProxyEdge | Parent | Children | UsageLogs | AccountGroups => Account
    case LinkAccount | LinkGroup => AccountGroup
    case GroupAccounts | GroupLinks => Group
    case ProxyAccounts => Proxy
    case UsageLogAccount => UsageLog
  }

  function Target(e: Edge): Entity {
    match e
    case Groups | LinkGroup => Group
    case ProxyEdge => Proxy
    case Parent | Children | LinkAccount | GroupAccounts | ProxyAccounts | UsageLogAccount => Account
    case UsageLogs => UsageLog
    case AccountGroups | GroupLinks => AccountGroup
  }

  function Rel(e: Edge): Relation {
    match e
    case Groups | GroupAccounts => ManyToMany
    case ProxyEdge | Parent | LinkAccount | LinkGroup | UsageLogAccount => ManyToOne
    case Children | UsageLogs | AccountGroups | GroupLinks | ProxyAccounts => OneToMany
  }

  /** The column that carries the edge: a foreign key of the owner (many-to-one), a foreign key of
      the target (one-to-many), or the owner's column of the link table (many-to-many). */
  function Key(e: Edge): Column {
    match e
    case Groups => AccountId
    case GroupAccounts => GroupId
    case ProxyEdge | ProxyAccounts => ProxyId
    case Parent | Children => ParentAccountId
    case UsageLogs | AccountGroups | LinkAccount | UsageLogAccount => AccountId
    case LinkGroup | GroupLinks => GroupId
  }

  /** The target's column of the link table of a many-to-many edge. */
  function FarKey(e: Edge): Column {
    if e.GroupAccounts? then AccountId else GroupId
  }

  /** The order in which `sqlAll` of an entity loads its edges. */
  function EdgeOrder(entity: Entity): seq<Edge> {
    match entity
    case Account => [Groups, ProxyEdge, Parent, Children, UsageLogs, AccountGroups]
    case AccountGroup => [LinkAccount, LinkGroup]
    case Group => [GroupAccounts, GroupLinks]
    case Proxy => [ProxyAccounts]
    case UsageLog => [UsageLogAccount]
  }

  /** The columns of an entity's `Columns` list are exactly the ones `ValidColumn` accepts. */
  lemma ColumnsAreValid(entity: Entity, c: Column)
    ensures c in Columns(entity) <==> ValidColumn(entity, c)
  {
    if entity.Account? && AccountHas(c) {
      assert Columns(Account)[AccountIndex(c)] == c;
    }
  }

  /** The columns of an account, in their order. */
  lemma AccountColumns()
    ensures Columns(Account) ==
            [Id, CreatedAt, UpdatedAt, DeletedAt, Name, Notes, Platform, Type, Credentials, Extra, ProxyId,
             ProxyFallbackOriginId, Concurrency, LoadFactor, Priority, RateMultiplier, Status, ErrorMessage, LastUsedAt,
             ExpiresAt, AutoPauseOnExpired, Schedulable, RateLimitedAt, RateLimitResetAt, OverloadUntil,
             TempUnschedulableUntil, TempUnschedulableReason, SessionWindowStart, SessionWindowEnd, SessionWindowStatus,
             ParentAccountId, QuotaDimension]
  {
    assert |Columns(Account)| == 32;
  }

  /** The modelled columns of the other entities. */
  lemma OtherEntityColumns()
    ensures Columns(AccountGroup) == [AccountId, GroupId, Priority, CreatedAt]
    ensures Columns(Group) == [Id, CreatedAt, UpdatedAt, DeletedAt, Name, Status, Platform]
    ensures Columns(Proxy) == [Id, CreatedAt, UpdatedAt, DeletedAt, Name, Status, ExpiresAt]
    ensures Columns(UsageLog) == [Id, AccountId, RateMultiplier, CreatedAt]
  {
  }

  /** Which columns hold integers. */
  lemma IntColumns(c: Column, i: int)
    ensures HasKind(IntV(i), KindOf(c)) <==>
            || c == Id || c == ProxyId || c == ProxyFallbackOriginId || c == Concurrency || c == LoadFactor
            || c == Priority || c == ParentAccountId || c == AccountId || c == GroupId
  {
  }

  /** Which columns hold texts. */
  lemma TextColumns(c: Column, s: string)
    ensures HasKind(TextV(s), KindOf(c)) <==>
            || c == Name || c == Notes || c == Platform || c == Type || c == Status || c == ErrorMessage
            || c == TempUnschedulableReason || c == SessionWindowStatus || c == QuotaDimension
  {
  }

  /** Which columns hold times. */
  lemma TimeColumns(c: Column, t: int)
    ensures HasKind(TimeV(t), KindOf(c)) <==>
            || c == CreatedAt || c == UpdatedAt || c == DeletedAt || c == LastUsedAt || c == ExpiresAt
            || c == RateLimitedAt || c == RateLimitResetAt || c == OverloadUntil || c == TempUnschedulableUntil
            || c == SessionWindowStart || c == SessionWindowEnd
  {
  }

  /** Which columns hold documents, truth values and fractions. */
  lemma OtherColumns(c: Column, doc: string, b: bool, r: real)
    ensures HasKind(JsonV(doc), KindOf(c)) <==> (c == Credentials || c == Extra) && doc != ""
    ensures HasKind(BoolV(b), KindOf(c)) <==> c == AutoPauseOnExpired || c == Schedulable
    ensures HasKind(FloatV(r), KindOf(c)) <==> c == RateMultiplier
  {
  }

  /** The blocks of `sqlAll`, entity by entity. */
  lemma EdgesInOrder()
    ensures EdgeOrder(Account) == [Groups, ProxyEdge, Parent, Children, UsageLogs, AccountGroups]
    ensures EdgeOrder(AccountGroup) == [LinkAccount, LinkGroup]
    ensures EdgeOrder(Group) == [GroupAccounts, GroupLinks]
    ensures EdgeOrder(Proxy) == [ProxyAccounts] && EdgeOrder(UsageLog) == [UsageLogAccount]
  {
  }

  /** The id column comes first in the `Columns` list, and only there. */
  lemma IdComesFirst(entity: Entity)
    requires HasId(entity)
    ensures |Columns(entity)| > 0 && Columns(entity)[0] == Id && Id !in Columns(entity)[1..]
  {
  }

  /** Key columns belong to the entity that carries them. */
  lemma KeysAreValid(e: Edge)
    ensures Rel(e).ManyToOne? ==> ValidColumn(Owner(e), Key(e))
    ensures Rel(e).OneToMany? ==> ValidColumn(Target(e), Key(e))
  {
    match e
    case LinkAccount => assert Columns(AccountGroup)[0] == AccountId;
    case LinkGroup => assert Columns(AccountGroup)[1] == GroupId;
    case GroupLinks => assert Columns(AccountGroup)[1] == GroupId;
    case AccountGroups => assert Columns(AccountGroup)[0] == AccountId;
    case UsageLogs => assert Columns(UsageLog)[1] == AccountId;
    case UsageLogAccount => assert Columns(UsageLog)[1] == AccountId;
    case _ =>
  }

  lemma IdIsValid(entity: Entity)
    requires HasId(entity)
    ensures ValidColumn(entity, Id)
  {
    IdComesFirst(entity);
  }

  lemma ValidIsNamed(entity: Entity, c: Column)
    requires ValidColumn(entity, c)
    ensures !c.Other?
  {
  }
}

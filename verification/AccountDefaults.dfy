/** Which creates of accounts pass the checks, and what the defaults leave in the stored row. */
module AccountDefaults {
  import opened Options
  import opened AccountCodec
  import opened BulkCreate
  import opened BulkSave
  import opened BulkAccounts

  /******* The checks *******/

  /** The columns that are not pointers must be set; the database sets the ID. */
  predicate Required(c: Column) {
    !c.Other? && c != ID && !Nillable(c)
  }

  predicate Validated(c: Column) {
    match c
    case Name | AccountLevel | Platform | Type | ShareMode | ShareStatus | Status | SessionWindowStatus | QuotaDimension => true
    case _ => false
  }

  function CheckOf(c: Column): nat {
    match c
    case CreatedAt => 0
    case UpdatedAt => 1
    case Name => 2
    case AccountLevel => 3
    case Platform => 4
    case Type => 5
    case Credentials => 6
    case Extra => 7
    case ShareMode => 8
    case ShareStatus => 9
    case Concurrency => 10
    case LoadFactorPaidCeiling => 11
    case Priority => 12
    case RateMultiplier => 13
    case Status => 14
    case AutoPauseOnExpired => 15
    case Schedulable => 16
    case SessionWindowStatus => 17
    case QuotaDimension => 18
    case _ => 19
  }

  /** Every required or validated column has its check, and there are no others. */
  lemma CheckOfColumn(c: Column)
    ensures Required(c) || Validated(c) ==>
            CheckOf(c) < |CHECKS| && CHECKS[CheckOf(c)] == Check(c, Required(c), Validated(c))
  {
  }

  lemma ColumnOfCheck(i: nat)
    requires i < |CHECKS|
    ensures CHECKS[i].required ==> Required(CHECKS[i].column)
    ensures CHECKS[i].validated ==> Validated(CHECKS[i].column)
  {
  }

  /** A create passes exactly if every required column is set and every validated one that
      is set is valid. */
  lemma AcceptedExactly(schema: Schema, values: map<Column, Value>)
    ensures Complaints(schema, values, CHECKS).None? <==>
            && (forall c :: Required(c) ==> c in values)
            && (forall c :: Validated(c) && c in values ==> schema.valid(c, values[c]))
  {
    ComplaintsExactly(schema, values, CHECKS);
    if Complaints(schema, values, CHECKS).None? {
      forall c | Required(c) ensures c in values {
        CheckOfColumn(c);
        assert CheckOne(schema, values, CHECKS[CheckOf(c)]).None?;
      }
      forall c | Validated(c) && c in values ensures schema.valid(c, values[c]) {
        CheckOfColumn(c);
        assert CheckOne(schema, values, CHECKS[CheckOf(c)]).None?;
      }
    } else {
      var i :| FirstComplaint(schema, values, CHECKS, i);
      ColumnOfCheck(i);
    }
  }

  /******* The stored row *******/

  /** The required columns with a default: all but three. */
  predicate HasDefault(c: Column) {
    Required(c) && c != Name && c != Platform && c != Type
  }

  /** Every default is a value of the type of its column. */
  ghost predicate TypedDefaults(schema: Schema) {
    forall c :: HasDefault(c) && schema.default_(c).Some? ==> Fits(c, schema.default_(c).value)
  }

  function PlaceOf(c: Column): nat {
    match c
    case CreatedAt => 0
    case UpdatedAt => 1
    case AccountLevel => 2
    case Credentials => 3
    case Extra => 4
    case ShareMode => 5
    case ShareStatus => 6
    case Concurrency => 7
    case LoadFactorPaidCeiling => 8
    case Priority => 9
    case RateMultiplier => 10
    case Status => 11
    case AutoPauseOnExpired => 12
    case Schedulable => 13
    case QuotaDimension => 14
    case _ => 15
  }

  lemma PlaceOfColumn(c: Column)
    ensures HasDefault(c) ==> PlaceOf(c) < |DEFAULTED| && DEFAULTED[PlaceOf(c)] == c
  {
  }

  lemma ColumnAtPlace(i: nat)
    requires i < |DEFAULTED|
    ensures HasDefault(DEFAULTED[i]) && !IsEdgeKey(DEFAULTED[i])
  {
  }

  lemma DefaultedExactly(c: Column)
    ensures c in DEFAULTED <==> HasDefault(c)
    ensures HasDefault(c) ==> !IsEdgeKey(c)
  {
    PlaceOfColumn(c);
    if c in DEFAULTED {
      var i: nat :| i < |DEFAULTED| && DEFAULTED[i] == c;
      ColumnAtPlace(i);
    }
    if HasDefault(c) {
      ColumnAtPlace(PlaceOf(c));
    }
  }

  /** What is stored in a column: the target of its edge, the value that was given, the
      default, or the zero value. */
  function StoredValue(schema: Schema, m: Mutation, c: Column): Value {
    if EdgeTarget(m, c).Some? then Int(EdgeTarget(m, c).value)
    else if c in m.values then m.values[c]
    else if HasDefault(c) && schema.default_(c).Some? then schema.default_(c).value
    else Zero(c)
  }

  lemma AllFilled(schema: Schema, values: map<Column, Value>, c: Column)
    requires Complaints(schema, Defaulted(schema, values, DEFAULTED).0, CHECKS).None?
    ensures var after := Defaulted(schema, values, DEFAULTED).0;
            && (c in after <==> c in values || (HasDefault(c) && schema.default_(c).Some?))
            && (c in after ==> after[c] == if c in values then values[c] else schema.default_(c).value)
  {
    var i := DefaultedKeeps(schema, values, DEFAULTED);
    if Defaulted(schema, values, DEFAULTED).1.Some? {
      DroppedErrorIsCaught(schema, values);
    }
    assert DEFAULTED[..i] == DEFAULTED;
    DefaultedExactly(c);
  }

  lemma DefaultsFillIn(schema: Schema, m: Mutation)
    requires Typed(m) && TypedDefaults(schema) && Complaints(schema, WithDefaults(schema)(m).values, CHECKS).None?
    ensures var m' := WithDefaults(schema)(m);
            Typed(m') && forall c :: Wanted(m', c) == StoredValue(schema, m, c)
  {
    var m' := WithDefaults(schema)(m);
    forall c | c in m'.values ensures Fits(c, m'.values[c]) && c != ID && !IsEdgeKey(c) {
      AllFilled(schema, m.values, c);
      DefaultedExactly(c);
    }
    forall c ensures Wanted(m', c) == StoredValue(schema, m, c) {
      AllFilled(schema, m.values, c);
      SameTarget(m, m', c);
    }
  }

  lemma SameTarget(m: Mutation, m': Mutation, c: Column)
    requires m'.proxy == m.proxy && m'.owner == m.owner && m'.parent == m.parent
    ensures EdgeTarget(m', c) == EdgeTarget(m, c)
  {
  }

  /** After a successful batch, reading back the row of each builder gives, in every column,
      what was given to the builder, and otherwise the default. */
  lemma DefaultsAreStored(
    schema: Schema, hooks: seq<seq<Hook<Mutation>>>, insert: seq<Option<CreateSpec>> -> Insertion,
    codec: Codec, ms: seq<Mutation>, j: nat)
    requires j < |ms| == |hooks| && AllPassThrough(Accounts(schema, hooks, insert))
    requires Invertible(codec) && Typed(ms[j]) && TypedDefaults(schema)
    ensures var env := Accounts(schema, hooks, insert);
            var st := Run(env, 0, 0, Prepared(Start(ms), WithDefaults(schema))).0;
            WasInserted(env, st) && st.Id(j).Some? ==>
              var m := WithDefaults(schema)(ms[j]);
              && Typed(m) && ReadRow(codec, m, st.Id(j).value).Done?
              && var a := ReadRow(codec, m, st.Id(j).value).account;
                 a.id == st.Id(j).value && forall c: Column :: !c.Other? && c != ID ==> a.Get(c) == StoredValue(schema, ms[j], c)
  {
    var env := Accounts(schema, hooks, insert);
    var prepared := Prepared(Start(ms), WithDefaults(schema));
    SaveStartsFresh(env, ms, WithDefaults(schema));
    AllOrNothing(env, prepared);
    var st := Run(env, 0, 0, prepared).0;
    if WasInserted(env, st) && st.Id(j).Some? {
      assert env.check(prepared.mutations[j]);
      DefaultsFillIn(schema, ms[j]);
      WriteThenRead(codec, WithDefaults(schema)(ms[j]), st.Id(j).value);
    }
  }

  /******* The defaults of the repository *******/

  /** The defaults of accounts, at a point in time. */
  function AccountDefault(now: int): Column -> Option<Value> {
    (c: Column) =>
      match c
      case CreatedAt | UpdatedAt => Some(Time(now))
      case AccountLevel => Some(Text("unknown"))
      case Credentials | Extra => Some(Doc(Some(map[])))
      case ShareMode => Some(Text("private"))
      case ShareStatus => Some(Text("approved"))
      case Concurrency => Some(Int(3))
      case LoadFactorPaidCeiling => Some(Int(10))
      case Priority => Some(Int(1))
      case RateMultiplier => Some(Float(1.0))
      case Status => Some(Text("active"))
      case AutoPauseOnExpired | Schedulable => Some(Bool(true))
      case QuotaDimension => Some(Text("global"))
      case _ => None
  }

  /** A create that gives a name, a platform and a type, and nothing else. */
  function PlainCreate(name: string, platform: string, type_: string): Mutation {
    Mutation(map[Name := Text(name), Platform := Text(platform), Type := Text(type_)], None, None, None, map[])
  }

  lemma DefaultsAreTyped(now: int, valid: (Column, Value) -> bool, c: Column)
    requires HasDefault(c) && AccountDefault(now)(c).Some?
    ensures Fits(c, AccountDefault(now)(c).value)
  {
  }

  lemma PlainCreateIsTyped(name: string, platform: string, type_: string)
    ensures Typed(PlainCreate(name, platform, type_))
  {
  }

  lemma EveryDefaultExists(now: int, c: Column)
    requires HasDefault(c)
    ensures AccountDefault(now)(c).Some?
  {
  }

  /** A column that was not read holds the zero value of its type. */
  lemma ZeroExactly(c: Column)
    requires !c.Other? && c != ID
    ensures if Required(c) then Fits(c, Zero(c)) && Zero(c) in [Int(0), Float(0.0), Bool(false), Text(""), Time(0), Doc(None)]
            else Zero(c) == Nil
  {
  }

  lemma PlainValues(name: string, platform: string, type_: string, c: Column)
    ensures var values := PlainCreate(name, platform, type_).values;
            && (c in values <==> c == Name || c == Platform || c == Type)
            && (c in values ==> values[c] == if c == Name then Text(name) else if c == Platform then Text(platform) else Text(type_))
  {
  }

  lemma StoredWithoutEdges(schema: Schema, m: Mutation, c: Column)
    requires m.proxy.None? && m.owner.None? && m.parent.None?
    ensures StoredValue(schema, m, c) ==
            if c in m.values then m.values[c]
            else if HasDefault(c) && schema.default_(c).Some? then schema.default_(c).value
            else Zero(c)
  {
    NoEdges(m, c);
  }

  lemma PlainColumn(now: int, valid: (Column, Value) -> bool, name: string, platform: string, type_: string, c: Column)
    requires !c.Other? && c != ID
    ensures StoredValue(Schema(AccountDefault(now), valid), PlainCreate(name, platform, type_), c) ==
            if c == Name then Text(name) else if c == Platform then Text(platform) else if c == Type then Text(type_)
            else if HasDefault(c) then AccountDefault(now)(c).value
            else Nil
  {
    StoredWithoutEdges(Schema(AccountDefault(now), valid), PlainCreate(name, platform, type_), c);
    PlainValues(name, platform, type_, c);
    if HasDefault(c) {
      EveryDefaultExists(now, c);
    } else if !Required(c) {
      ZeroExactly(c);
    }
  }

  /** Such a create is stored with the defaults of the repository, and every other column
      is null. */
  lemma PlainCreateIsStored(now: int, valid: (Column, Value) -> bool, name: string, platform: string, type_: string)
    ensures var schema, m := Schema(AccountDefault(now), valid), PlainCreate(name, platform, type_);
            && TypedDefaults(schema) && Typed(m)
            && forall c: Column :: !c.Other? && c != ID ==>
                 StoredValue(schema, m, c) ==
                 if c == Name then Text(name) else if c == Platform then Text(platform) else if c == Type then Text(type_)
                 else if HasDefault(c) then AccountDefault(now)(c).value
                 else Nil
  {
    PlainCreateIsTyped(name, platform, type_);
    forall c | HasDefault(c) && AccountDefault(now)(c).Some? ensures Fits(c, AccountDefault(now)(c).value) {
      DefaultsAreTyped(now, valid, c);
    }
    forall c: Column | !c.Other? && c != ID
      ensures StoredValue(Schema(AccountDefault(now), valid), PlainCreate(name, platform, type_), c) ==
              if c == Name then Text(name) else if c == Platform then Text(platform) else if c == Type then Text(type_)
              else if HasDefault(c) then AccountDefault(now)(c).value
              else Nil
    {
      PlainColumn(now, valid, name, platform, type_, c);
    }
  }

  lemma NoEdges(m: Mutation, c: Column)
    requires m.proxy.None? && m.owner.None? && m.parent.None?
    ensures EdgeTarget(m, c).None?
  {
  }
}

/**
  The account row codec: what an insert writes for a mutation, how a row is scanned
  into typed slots, and how the slots are assigned to the fields of an account.
 */
module AccountCodec {
  import opened Options

  datatype Column =
    | ID | CreatedAt | UpdatedAt | DeletedAt | Name | AccountLevel | Notes | Platform | Type | Credentials
    | Extra | OwnerUserID | ShareMode | ShareStatus | SharePolicyID | ProxyID | ProxyFallbackOriginID
    | Concurrency | LoadFactor | LoadFactorPaidCeiling | Priority | PrivatePriority | RateMultiplier | Status
    | ErrorMessage | LastUsedAt | ExpiresAt | AutoPauseOnExpired | Schedulable | RateLimitedAt
    | RateLimitResetAt | OverloadUntil | TempUnschedulableUntil | TempUnschedulableReason
    | SessionWindowStart | SessionWindowEnd | SessionWindowStatus | ParentAccountID | QuotaDimension
    | Other(name: string)

  /** A field of an account. A nil pointer is Nil; a JSON document may itself be null. */
  datatype Value =
    | Nil
    | Bool(b: bool)
    | Float(r: real)
    | Int(i: int)
    | Text(s: string)
    | Time(t: int)
    | Doc(doc: Option<map<string, string>>)

  datatype Kind = BytesKind | BoolKind | FloatKind | IntKind | StringKind | TimeKind | UnknownKind

  /** A scan destination after the driver has filled it; None stands for NULL. */
  datatype Slot =
    | BytesSlot(bytes: seq<int>)
    | BoolSlot(bool_: Option<bool>)
    | FloatSlot(float: Option<real>)
    | IntSlot(int_: Option<int>)
    | StringSlot(text: Option<string>)
    | TimeSlot(time: Option<int>)
    | UnknownSlot(raw: string)

  function KindOf(slot: Slot): Kind {
    match slot
    case BytesSlot(_) => BytesKind
    case BoolSlot(_) => BoolKind
    case FloatSlot(_) => FloatKind
    case IntSlot(_) => IntKind
    case StringSlot(_) => StringKind
    case TimeSlot(_) => TimeKind
    case UnknownSlot(_) => UnknownKind
  }

  /** The destination that scanValues allocates for a column. */
  function ScanKind(c: Column): Kind {
    match c
    case Credentials | Extra => BytesKind
    case AutoPauseOnExpired | Schedulable => BoolKind
    case RateMultiplier => FloatKind
    case ID | OwnerUserID | SharePolicyID | ProxyID | ProxyFallbackOriginID | Concurrency | LoadFactor |
    LoadFactorPaidCeiling | Priority | PrivatePriority | ParentAccountID => IntKind
    case Name | AccountLevel | Notes | Platform | Type | ShareMode | ShareStatus | Status | ErrorMessage |
    TempUnschedulableReason | SessionWindowStatus | QuotaDimension => StringKind
    case CreatedAt | UpdatedAt | DeletedAt | LastUsedAt | ExpiresAt | RateLimitedAt | RateLimitResetAt |
    OverloadUntil | TempUnschedulableUntil | SessionWindowStart | SessionWindowEnd => TimeKind
    case Other(_) => UnknownKind
  }

  /** The destination that assignValues insists on, column by column. */
  function ExpectedKind(c: Column): Kind {
    match c
    case ID => IntKind
    case CreatedAt => TimeKind
    case UpdatedAt => TimeKind
    case DeletedAt => TimeKind
    case Name => StringKind
    case AccountLevel => StringKind
    case Notes => StringKind
    case Platform => StringKind
    case Type => StringKind
    case Credentials => BytesKind
    case Extra => BytesKind
    case OwnerUserID => IntKind
    case ShareMode => StringKind
    case ShareStatus => StringKind
    case SharePolicyID => IntKind
    case ProxyID => IntKind
    case ProxyFallbackOriginID => IntKind
    case Concurrency => IntKind
    case LoadFactor => IntKind
    case LoadFactorPaidCeiling => IntKind
    case Priority => IntKind
    case PrivatePriority => IntKind
    case RateMultiplier => FloatKind
    case Status => StringKind
    case ErrorMessage => StringKind
    case LastUsedAt => TimeKind
    case ExpiresAt => TimeKind
    case AutoPauseOnExpired => BoolKind
    case Schedulable => BoolKind
    case RateLimitedAt => TimeKind
    case RateLimitResetAt => TimeKind
    case OverloadUntil => TimeKind
    case TempUnschedulableUntil => TimeKind
    case TempUnschedulableReason => StringKind
    case SessionWindowStart => TimeKind
    case SessionWindowEnd => TimeKind
    case SessionWindowStatus => StringKind
    case ParentAccountID => IntKind
    case QuotaDimension => StringKind
    case Other(_) => UnknownKind
  }

  /** The columns whose fields are pointers. */
  predicate Nillable(c: Column) {
    c in {
      DeletedAt, Notes, OwnerUserID, SharePolicyID, ProxyID, ProxyFallbackOriginID, LoadFactor,
      PrivatePriority, ErrorMessage, LastUsedAt, ExpiresAt, RateLimitedAt, RateLimitResetAt, OverloadUntil,
      TempUnschedulableUntil, TempUnschedulableReason, SessionWindowStart, SessionWindowEnd,
      SessionWindowStatus, ParentAccountID
    }
  }

  function Zero(c: Column): Value {
    if Nillable(c) then Nil
    else
      match ScanKind(c)
      case BytesKind => Doc(None)
      case BoolKind => Bool(false)
      case FloatKind => Float(0.0)
      case IntKind => Int(0)
      case StringKind => Text("")
      case TimeKind => Time(0)
      case UnknownKind => Nil
  }

  /** A value of the Go type of the column. */
  predicate Fits(c: Column, v: Value) {
    match ScanKind(c)
    case BytesKind => v.Doc?
    case BoolKind => v.Bool?
    case FloatKind => v.Float?
    case IntKind => v.Int?
    case StringKind => v.Text?
    case TimeKind => v.Time?
    case UnknownKind => false
  }

  /** A field that is not in the map holds the zero value of its type. */
  datatype Account = Account(id: int, fields: map<Column, Value>, selected: map<string, Slot>) {
    function Get(c: Column): Value {
      if c in fields then fields[c] else Zero(c)
    }
  }

  /** JSON encoding and decoding of documents. */
  datatype Codec = Codec(encode: Option<map<string, string>> -> seq<int>, decode: seq<int> -> Option<Option<map<string, string>>>)

  ghost predicate Invertible(codec: Codec) {
    forall d :: codec.encode(d) != [] && codec.decode(codec.encode(d)) == Some(d)
  }

  /******* Scanning and assigning *******/

  datatype AssignError = TooFewValues | WrongType(column: Column) | BadJson(column: Column)

  datatype Assigned = Failed(error: AssignError, partial: Account) | Done(account: Account)

  /** Allocates one destination per column. */
  method ScanValues(columns: seq<Column>) returns (kinds: seq<Kind>)
    ensures |kinds| == |columns|
    ensures forall i :: 0 <= i < |columns| ==> kinds[i] == ExpectedKind(columns[i])
  {
    kinds := [];
    for i := 0 to |columns|
      invariant |kinds| == i
      invariant forall j :: 0 <= j < i ==> kinds[j] == ExpectedKind(columns[j])
    {
      kinds := kinds + [ScanKind(columns[i])];
    }
  }

  /** Decoding into a map that is already there adds to it. */
  function Merge(old_: Value, doc: Option<map<string, string>>): Value {
    match doc
    case None => Doc(None)
    case Some(m) => Doc(Some(if old_.Doc? && old_.doc.Some? then old_.doc.value + m else m))
  }

  /** The new value of a field, or None if a document cannot be decoded. */
  function Update(codec: Codec, old_: Value, slot: Slot): Option<Value> {
    match slot
    case BytesSlot(bytes) =>
      if bytes == [] then Some(old_)
      else (match codec.decode(bytes) case None => None case Some(doc) => Some(Merge(old_, doc)))
    case BoolSlot(v) => Some(if v.Some? then Bool(v.value) else old_)
    case FloatSlot(v) => Some(if v.Some? then Float(v.value) else old_)
    case IntSlot(v) => Some(if v.Some? then Int(v.value) else old_)
    case StringSlot(v) => Some(if v.Some? then Text(v.value) else old_)
    case TimeSlot(v) => Some(if v.Some? then Time(v.value) else old_)
    case UnknownSlot(_) => Some(old_)
  }

  function AssignOne(codec: Codec, a: Account, c: Column, slot: Slot): Assigned {
    if c.Other? then Done(a.(selected := a.selected[c.name := slot]))
    else if KindOf(slot) != ExpectedKind(c) then Failed(WrongType(c), a)
    else if c == ID then Done(a.(id := if slot.int_.Some? then slot.int_.value else 0))
    else
      match Update(codec, a.Get(c), slot)
      case None => Failed(BadJson(c), a)
      case Some(v) => Done(a.(fields := a.fields[c := v]))
  }

  function AssignAll(codec: Codec, a: Account, columns: seq<Column>, slots: seq<Slot>): Assigned
    requires |columns| <= |slots|
  {
    if columns == [] then Done(a)
    else
      var n := |columns| - 1;
      match AssignAll(codec, a, columns[..n], slots)
      case Failed(e, p) => Failed(e, p)
      case Done(a') => AssignOne(codec, a', columns[n], slots[n])
  }

  /** An account object, assigned in place. */
  class AccountNode {
    var id: int
    var fields: map<Column, Value>
    var selected: map<string, Slot>

    constructor ()
      ensures View() == Account(0, map[], map[])
    {
      id, fields, selected := 0, map[], map[];
    }

    function View(): Account
      reads this
    {
      Account(id, fields, selected)
    }

    method AssignValues(codec: Codec, columns: seq<Column>, slots: seq<Slot>) returns (err: Option<AssignError>)
      modifies this
      ensures |slots| < |columns| ==> err == Some(TooFewValues) && View() == old(View())
      ensures |slots| >= |columns| ==>
        match AssignAll(codec, old(View()), columns, slots)
        case Failed(e, partial) => err == Some(e) && View() == partial
        case Done(a) => err == None && View() == a
    {
      if |slots| < |columns| {
        return Some(TooFewValues);
      }
      for i := 0 to |columns|
        invariant AssignAll(codec, old(View()), columns[..i], slots) == Done(View())
      {
        assert columns[..i + 1][..i] == columns[..i];
        var c, slot := columns[i], slots[i];
        if c.Other? {
          selected := selected[c.name := slot];
        } else if KindOf(slot) != ExpectedKind(c) {
          FailedPrefix(codec, old(View()), columns, slots, i + 1);
          return Some(WrongType(c));
        } else if c == ID {
          id := if slot.int_.Some? then slot.int_.value else 0;
        } else {
          var v := Update(codec, View().Get(c), slot);
          if v.None? {
            FailedPrefix(codec, old(View()), columns, slots, i + 1);
            return Some(BadJson(c));
          }
          fields := fields[c := v.value];
        }
      }
      assert columns[..|columns|] == columns;
      err := None;
    }
  }

  lemma {:induction false} FailedPrefix(codec: Codec, a: Account, columns: seq<Column>, slots: seq<Slot>, i: nat)
    requires i <= |columns| <= |slots|
    requires AssignAll(codec, a, columns[..i], slots).Failed?
    ensures AssignAll(codec, a, columns, slots) == AssignAll(codec, a, columns[..i], slots)
    decreases |columns| - i
  {
    if i < |columns| {
      assert columns[..i + 1][..i] == columns[..i];
      FailedPrefix(codec, a, columns, slots, i + 1);
    } else {
      assert columns[..i] == columns;
    }
  }

  /** Slots that scanValues allocated are never of the wrong type, whatever columns
      are asked for, known or not and once or more often. */
  lemma {:induction false} ScannedNeverMismatch(codec: Codec, a: Account, columns: seq<Column>, slots: seq<Slot>)
    requires |columns| <= |slots|
    requires forall i :: 0 <= i < |columns| ==> KindOf(slots[i]) == ScanKind(columns[i])
    ensures AssignAll(codec, a, columns, slots).Failed? ==> AssignAll(codec, a, columns, slots).error.BadJson?
  {
    if columns != [] {
      var n := |columns| - 1;
      ScannedNeverMismatch(codec, a, columns[..n], slots);
      assert KindOf(slots[n]) == ScanKind(columns[n]);
      assert ScanKind(columns[n]) == ExpectedKind(columns[n]);
    }
  }

  /** What the slots of one column make of its field. */
  ghost function Folded(codec: Codec, v: Value, columns: seq<Column>, slots: seq<Slot>, c: Column): Option<Value>
    requires |columns| <= |slots|
  {
    if columns == [] then Some(v)
    else
      var n := |columns| - 1;
      var before := Folded(codec, v, columns[..n], slots, c);
      if before.None? || columns[n] != c then before else Update(codec, before.value, slots[n])
  }

  /** Every field depends on the slots of its own column only. */
  lemma {:induction false} FieldsAreFolds(codec: Codec, a: Account, columns: seq<Column>, slots: seq<Slot>, c: Column)
    requires |columns| <= |slots| && AssignAll(codec, a, columns, slots).Done?
    requires c != ID && !c.Other?
    ensures Folded(codec, a.Get(c), columns, slots, c) == Some(AssignAll(codec, a, columns, slots).account.Get(c))
  {
    if columns != [] {
      FieldsAreFolds(codec, a, columns[..|columns| - 1], slots, c);
    }
  }

  /** The value that a non-null slot carries. */
  function Carried(slot: Slot): Option<Value> {
    match slot
    case BytesSlot(_) => None
    case BoolSlot(v) => if v.Some? then Some(Bool(v.value)) else None
    case FloatSlot(v) => if v.Some? then Some(Float(v.value)) else None
    case IntSlot(v) => if v.Some? then Some(Int(v.value)) else None
    case StringSlot(v) => if v.Some? then Some(Text(v.value)) else None
    case TimeSlot(v) => if v.Some? then Some(Time(v.value)) else None
    case UnknownSlot(_) => None
  }

  /** The last non-null value among the slots of a column. */
  function LastCarried(columns: seq<Column>, slots: seq<Slot>, c: Column): Option<Value>
    requires |columns| <= |slots|
  {
    if columns == [] then None
    else
      var n := |columns| - 1;
      if columns[n] == c && Carried(slots[n]).Some? then Carried(slots[n]) else LastCarried(columns[..n], slots, c)
  }

  lemma {:induction false} FoldIsLastCarried(codec: Codec, v: Value, columns: seq<Column>, slots: seq<Slot>, c: Column)
    requires |columns| <= |slots|
    requires forall i :: 0 <= i < |columns| && columns[i] == c ==> !slots[i].BytesSlot?
    ensures Folded(codec, v, columns, slots, c) ==
            Some(if LastCarried(columns, slots, c).Some? then LastCarried(columns, slots, c).value else v)
  {
    if columns != [] {
      FoldIsLastCarried(codec, v, columns[..|columns| - 1], slots, c);
    }
  }

  /** Each plain field ends with its last non-null value and otherwise keeps what it had. */
  lemma AssignedFields(codec: Codec, a: Account, columns: seq<Column>, slots: seq<Slot>, c: Column)
    requires |columns| <= |slots| && AssignAll(codec, a, columns, slots).Done?
    requires !c.Other? && c != ID && ExpectedKind(c) != BytesKind
    ensures AssignAll(codec, a, columns, slots).account.Get(c) ==
            if LastCarried(columns, slots, c).Some? then LastCarried(columns, slots, c).value else a.Get(c)
  {
    NoMismatch(codec, a, columns, slots);
    FieldsAreFolds(codec, a, columns, slots, c);
    FoldIsLastCarried(codec, a.Get(c), columns, slots, c);
  }

  /** The ID takes the last value in its column, wherever that stands, null counting as zero. */
  lemma {:induction false} AssignedId(codec: Codec, a: Account, columns: seq<Column>, slots: seq<Slot>)
    requires |columns| <= |slots| && AssignAll(codec, a, columns, slots).Done?
    ensures var id := AssignAll(codec, a, columns, slots).account.id;
            match LastSlot(columns, slots, ID)
            case None => id == a.id
            case Some(slot) => slot.IntSlot? && id == if slot.int_.Some? then slot.int_.value else 0
  {
    if columns != [] {
      AssignedId(codec, a, columns[..|columns| - 1], slots);
    }
  }

  lemma {:induction false} NoMismatch(codec: Codec, a: Account, columns: seq<Column>, slots: seq<Slot>)
    requires |columns| <= |slots| && AssignAll(codec, a, columns, slots).Done?
    ensures forall i :: 0 <= i < |columns| && !columns[i].Other? ==> KindOf(slots[i]) == ExpectedKind(columns[i])
  {
    if columns != [] {
      NoMismatch(codec, a, columns[..|columns| - 1], slots);
    }
  }

  /** The last slot of a column. */
  function LastSlot(columns: seq<Column>, slots: seq<Slot>, c: Column): Option<Slot>
    requires |columns| <= |slots|
  {
    if columns == [] then None
    else
      var n := |columns| - 1;
      if columns[n] == c then Some(slots[n]) else LastSlot(columns[..n], slots, c)
  }

  /** Columns that the account does not know, and no others, reach the selected values,
      where the last slot of a name is kept. */
  lemma {:induction false} UnknownColumnsAreSelected(codec: Codec, a: Account, columns: seq<Column>, slots: seq<Slot>, name: string)
    requires |columns| <= |slots| && AssignAll(codec, a, columns, slots).Done?
    ensures var selected := AssignAll(codec, a, columns, slots).account.selected;
            match LastSlot(columns, slots, Other(name))
            case Some(slot) => name in selected && selected[name] == slot
            case None => (name in selected <==> name in a.selected) && (name in selected ==> selected[name] == a.selected[name])
  {
    if columns != [] {
      UnknownColumnsAreSelected(codec, a, columns[..|columns| - 1], slots, name);
    }
  }

  /** The documents of a column, in order; an empty slot holds none, and one may be null. */
  function Documents(codec: Codec, columns: seq<Column>, slots: seq<Slot>, c: Column): seq<Option<map<string, string>>>
    requires |columns| <= |slots|
  {
    if columns == [] then []
    else
      var n := |columns| - 1;
      var init := Documents(codec, columns[..n], slots, c);
      if columns[n] == c && slots[n].BytesSlot? && slots[n].bytes != [] && codec.decode(slots[n].bytes).Some?
      then init + [codec.decode(slots[n].bytes).value]
      else init
  }

  /** What the last document since the last null one says of a key. */
  function LastSaid(before: Option<map<string, string>>, docs: seq<Option<map<string, string>>>, key: string): Option<string> {
    if docs == [] then (if before.Some? && key in before.value then Some(before.value[key]) else None)
    else
      match docs[|docs| - 1]
      case None => None
      case Some(m) => if key in m then Some(m[key]) else LastSaid(before, docs[..|docs| - 1], key)
  }

  function Said(doc: Option<map<string, string>>, key: string): Option<string> {
    if doc.Some? && key in doc.value then Some(doc.value[key]) else None
  }

  /** A field that was read through documents: it is null exactly if its last document is,
      and says of the key what the last document since the last null one says. */
  predicate MergeOf(was: Value, docs: seq<Option<map<string, string>>>, field: Value, key: string) {
    && was.Doc? && field.Doc?
    && (if docs == [] then field == was else (field.doc.Some? <==> docs[|docs| - 1].Some?))
    && Said(field.doc, key) == LastSaid(was.doc, docs, key)
  }

  /** One more document of the field. */
  predicate MergesInto(field: Value, doc: Option<map<string, string>>, field': Value, key: string) {
    && field.Doc? && field'.Doc? && (field'.doc.Some? <==> doc.Some?)
    && Said(field'.doc, key) ==
       if doc.None? then None else if key in doc.value then Some(doc.value[key]) else Said(field.doc, key)
  }

  lemma MergeSnoc(was: Value, docs: seq<Option<map<string, string>>>, field: Value, doc: Option<map<string, string>>, field': Value, key: string)
    requires MergeOf(was, docs, field, key) && MergesInto(field, doc, field', key)
    ensures MergeOf(was, docs + [doc], field', key)
  {
    assert (docs + [doc])[..|docs|] == docs;
  }

  /** A document field, for every list of columns: it is null exactly if its last document
      is, and otherwise the union of its documents since the last null one, later keys
      winning, on top of what it held if there was no null one. */
  lemma {:induction false} DocumentsAreMerged(codec: Codec, a: Account, columns: seq<Column>, slots: seq<Slot>, c: Column, key: string)
    requires |columns| <= |slots| && AssignAll(codec, a, columns, slots).Done?
    requires (c == Credentials || c == Extra) && a.Get(c).Doc?
    ensures MergeOf(a.Get(c), Documents(codec, columns, slots, c), AssignAll(codec, a, columns, slots).account.Get(c), key)
  {
    if columns != [] {
      var n := |columns| - 1;
      DocumentsAreMerged(codec, a, columns[..n], slots, c, key);
      var before := AssignAll(codec, a, columns[..n], slots).account;
      if columns[n] != c {
        OtherFieldKept(codec, before, columns[n], slots[n], c);
      } else {
        MergedOnce(codec, before, c, slots[n], key);
        if slots[n].bytes != [] {
          var docs, doc := Documents(codec, columns[..n], slots, c), codec.decode(slots[n].bytes).value;
          MergeSnoc(a.Get(c), docs, before.Get(c), doc, AssignOne(codec, before, c, slots[n]).account.Get(c), key);
        }
      }
    }
  }

  lemma OtherFieldKept(codec: Codec, a: Account, d: Column, slot: Slot, c: Column)
    requires c != d && AssignOne(codec, a, d, slot).Done?
    ensures AssignOne(codec, a, d, slot).account.Get(c) == a.Get(c)
  {
  }

  lemma MergedOnce(codec: Codec, a: Account, c: Column, slot: Slot, key: string)
    requires (c == Credentials || c == Extra) && a.Get(c).Doc? && AssignOne(codec, a, c, slot).Done?
    ensures slot.BytesSlot?
    ensures var field := AssignOne(codec, a, c, slot).account.Get(c);
            if slot.bytes == [] then field == a.Get(c)
            else codec.decode(slot.bytes).Some? && MergesInto(a.Get(c), codec.decode(slot.bytes).value, field, key)
  {
  }

  /** The field ends with its last document exactly if that is null or has every key that
      the field held just before. */
  lemma LastDocumentExactly(codec: Codec, a: Account, columns: seq<Column>, slots: seq<Slot>, c: Column)
    requires |columns| <= |slots| && AssignAll(codec, a, columns, slots).Done?
    requires (c == Credentials || c == Extra) && a.Get(c).Doc? && Documents(codec, columns, slots, c) != []
    ensures var docs := Documents(codec, columns, slots, c);
            var last := docs[|docs| - 1];
            AssignAll(codec, a, columns, slots).account.Get(c) == Doc(last) <==>
            last.None? || forall key :: LastSaid(a.Get(c).doc, docs[..|docs| - 1], key).Some? ==> key in last.value
  {
    var field := AssignAll(codec, a, columns, slots).account.Get(c);
    var docs := Documents(codec, columns, slots, c);
    var last, before := docs[|docs| - 1], docs[..|docs| - 1];
    DocumentsAreMerged(codec, a, columns, slots, c, "");
    forall key ensures Said(field.doc, key) == LastSaid(a.Get(c).doc, docs, key) {
      DocumentsAreMerged(codec, a, columns, slots, c, key);
    }
    if last.Some? {
      if forall key :: LastSaid(a.Get(c).doc, before, key).Some? ==> key in last.value {
        forall key ensures Said(field.doc, key) == Said(last, key) {
        }
        SameSayings(field.doc.value, last.value);
      } else {
        var key :| LastSaid(a.Get(c).doc, before, key).Some? && key !in last.value;
        assert Said(field.doc, key).Some?;
      }
    }
  }

  lemma SameSayings(m: map<string, string>, m': map<string, string>)
    requires forall key :: Said(Some(m), key) == Said(Some(m'), key)
    ensures m == m'
  {
    forall key ensures key in m <==> key in m' {
      assert Said(Some(m), key) == Said(Some(m'), key);
    }
    forall key | key in m ensures m[key] == m'[key] {
      assert Said(Some(m), key) == Said(Some(m'), key);
    }
  }

  const LETTERS := Codec(
    (d: Option<map<string, string>>) => [0],
    (bytes: seq<int>) => Some(Some(if bytes == [1] then map["a" := "1"] else map["b" := "2"])))

  /** The credentials read twice in one row: both documents are kept. */
  lemma CredentialsMerge()
    ensures AssignAll(LETTERS, Account(0, map[], map[]), [Credentials, Credentials], [BytesSlot([1]), BytesSlot([2])]) ==
            Done(Account(0, map[Credentials := Doc(Some(map["a" := "1", "b" := "2"]))], map[]))
  {
    var columns, slots := [Credentials, Credentials], [BytesSlot([1]), BytesSlot([2])];
    assert columns[..1] == [Credentials] && columns[..1][..0] == [];
    var start := Account(0, map[], map[]);
    assert start.Get(Credentials) == Doc(None) && AssignAll(LETTERS, start, [], slots) == Done(start);
    assert AssignOne(LETTERS, start, Credentials, slots[0]) == Done(start.(fields := map[][Credentials := Doc(Some(map["a" := "1"]))]));
    var first := AssignAll(LETTERS, Account(0, map[], map[]), columns[..1], slots);
    assert first == Done(Account(0, map[Credentials := Doc(Some(map["a" := "1"]))], map[]));
    assert map["a" := "1"] + map["b" := "2"] == map["a" := "1", "b" := "2"];
  }

  /******* Creating *******/

  /** An edge to many neighbors, which leaves no key in the row itself. */
  datatype ListEdge = Groups | Children | UsageLogs

  /** The pending changes of a create: field values, the targets of unique edges and those
      of list edges. */
  datatype Mutation = Mutation(
    values: map<Column, Value>, proxy: Option<int>, owner: Option<int>, parent: Option<int>, linked: map<ListEdge, seq<int>>)
  {
    function Linked(e: ListEdge): seq<int> {
      if e in linked then linked[e] else []
    }
  }

  /** The fields that createSpec copies, in its order. */
  const SPEC_COLUMNS := [
    CreatedAt, UpdatedAt, DeletedAt, Name, AccountLevel, Notes, Platform, Type, Credentials, Extra,
    ShareMode, ShareStatus, SharePolicyID, ProxyFallbackOriginID, Concurrency, LoadFactor,
    LoadFactorPaidCeiling, Priority, PrivatePriority, RateMultiplier, Status, ErrorMessage, LastUsedAt,
    ExpiresAt, AutoPauseOnExpired, Schedulable, RateLimitedAt, RateLimitResetAt, OverloadUntil,
    TempUnschedulableUntil, TempUnschedulableReason, SessionWindowStart, SessionWindowEnd,
    SessionWindowStatus, QuotaDimension
  ]

  const ALL_COLUMNS := [
    ID, CreatedAt, UpdatedAt, DeletedAt, Name, AccountLevel, Notes, Platform, Type, Credentials, Extra,
    OwnerUserID, ShareMode, ShareStatus, SharePolicyID, ProxyID, ProxyFallbackOriginID, Concurrency,
    LoadFactor, LoadFactorPaidCeiling, Priority, PrivatePriority, RateMultiplier, Status, ErrorMessage,
    LastUsedAt, ExpiresAt, AutoPauseOnExpired, Schedulable, RateLimitedAt, RateLimitResetAt, OverloadUntil,
    TempUnschedulableUntil, TempUnschedulableReason, SessionWindowStart, SessionWindowEnd,
    SessionWindowStatus, ParentAccountID, QuotaDimension
  ]

  /** What goes to the database: set fields, the foreign keys of M2O edges, and the
      neighbors of list edges. */
  datatype CreateSpec = CreateSpec(fields: map<Column, Value>, keys: map<Column, int>, links: map<ListEdge, seq<int>>)

  function AddLink(links: map<ListEdge, seq<int>>, e: ListEdge, targets: seq<int>): map<ListEdge, seq<int>> {
    if targets == [] then links else links[e := targets]
  }

  function SpecLinks(m: Mutation): map<ListEdge, seq<int>> {
    AddLink(AddLink(AddLink(map[], Groups, m.Linked(Groups)), Children, m.Linked(Children)), UsageLogs, m.Linked(UsageLogs))
  }

  datatype Created = Created(node: Account, spec: CreateSpec) {
    /** Adds a unique edge to the specification and its key to the node. */
    function AddEdge(key: Column, target: Option<int>): Created {
      match target
      case None => this
      case Some(id) => Created(node.(fields := node.fields[key := Int(id)]), spec.(keys := spec.keys[key := id]))
    }
  }

  function SpecFields(m: Mutation): map<Column, Value> {
    map c | c in m.values && c in SPEC_COLUMNS :: m.values[c]
  }

  /** The node and the specification that a mutation describes. */
  function CreateSpecOf(m: Mutation): Created {
    var fields := SpecFields(m);
    Created(Account(0, fields, map[]), CreateSpec(fields, map[], SpecLinks(m)))
    .AddEdge(ProxyID, m.proxy).AddEdge(OwnerUserID, m.owner).AddEdge(ParentAccountID, m.parent)
  }

  predicate IsEdgeKey(c: Column) {
    c == ProxyID || c == OwnerUserID || c == ParentAccountID
  }

  /** A mutation holds values of the right types; foreign keys are held as edges. */
  predicate Typed(m: Mutation) {
    forall c :: c in m.values ==> Fits(c, m.values[c]) && c != ID && !IsEdgeKey(c)
  }

  function EdgeTarget(m: Mutation, c: Column): Option<int> {
    match c
    case ProxyID => m.proxy
    case OwnerUserID => m.owner
    case ParentAccountID => m.parent
    case _ => None
  }

  /** What the caller asked to be stored in a column. */
  function Wanted(m: Mutation, c: Column): Value {
    if EdgeTarget(m, c).Some? then Int(EdgeTarget(m, c).value)
    else if c in m.values then m.values[c]
    else Zero(c)
  }

  /** How a stored value comes back in a scan destination. */
  function Stored(codec: Codec, c: Column, v: Value): Slot
    requires Fits(c, v)
  {
    match v
    case Doc(d) => BytesSlot(codec.encode(d))
    case Bool(b) => BoolSlot(Some(b))
    case Float(r) => FloatSlot(Some(r))
    case Int(i) => IntSlot(Some(i))
    case Text(s) => StringSlot(Some(s))
    case Time(t) => TimeSlot(Some(t))
  }

  function NullSlot(c: Column): Slot {
    match ScanKind(c)
    case BytesKind => BytesSlot([])
    case BoolKind => BoolSlot(None)
    case FloatKind => FloatSlot(None)
    case IntKind => IntSlot(None)
    case StringKind => StringSlot(None)
    case TimeKind => TimeSlot(None)
    case UnknownKind => UnknownSlot("")
  }

  /** The slot that the inserted row fills for a column. */
  function RowSlot(codec: Codec, spec: CreateSpec, id: int, c: Column): Slot
    requires forall f :: f in spec.fields ==> Fits(f, spec.fields[f])
  {
    if c == ID then IntSlot(Some(id))
    else if c in spec.keys then IntSlot(Some(spec.keys[c]))
    else if c in spec.fields then Stored(codec, c, spec.fields[c])
    else NullSlot(c)
  }

  /** Two accounts whose fields cannot be told apart. */
  ghost predicate SameFields(a: Account, b: Account) {
    a.id == b.id && forall c: Column :: !c.Other? && c != ID ==> a.Get(c) == b.Get(c)
  }

  lemma KindsAgree(c: Column)
    ensures ScanKind(c) == ExpectedKind(c)
    ensures ScanKind(c) == BytesKind ==> Zero(c) == Doc(None)
  {
  }

  lemma NullReadBack(codec: Codec, c: Column, v: Value)
    ensures Update(codec, v, NullSlot(c)) == Some(v) && KindOf(NullSlot(c)) == ScanKind(c)
  {
  }

  /** Reading a stored value gives it back, the first time and again. */
  lemma StoredReadBack(codec: Codec, c: Column, before: Value, v: Value)
    requires Invertible(codec) && Fits(c, v) && (before == Zero(c) || before == v)
    ensures Update(codec, before, Stored(codec, c, v)) == Some(v) && KindOf(Stored(codec, c, v)) == ScanKind(c)
  {
    if v.Doc? {
      KindsAgree(c);
      if v.doc.Some? {
        assert v.doc.value + v.doc.value == v.doc.value;
      }
    }
  }

  lemma EverySpecColumn(c: Column)
    requires !c.Other? && c != ID && !IsEdgeKey(c)
    ensures c in SPEC_COLUMNS
  {
  }

  lemma EveryValueIsCopied(m: Mutation)
    requires Typed(m)
    ensures SpecFields(m) == m.values
  {
    forall c | c in m.values ensures c in SPEC_COLUMNS {
      EverySpecColumn(c);
    }
  }

  /** The specification holds every value, every key and every link of the mutation, in
      its place, and the node holds what the caller asked for. */
  lemma SpecIsComplete(m: Mutation, c: Column)
    requires Typed(m) && !c.Other? && c != ID
    ensures var spec := CreateSpecOf(m).spec;
            && spec.fields == m.values
            && (c in spec.keys <==> EdgeTarget(m, c).Some?)
            && (c in spec.keys ==> spec.keys[c] == EdgeTarget(m, c).value)
            && (forall e :: e in spec.links <==> m.Linked(e) != [])
            && (forall e :: e in spec.links ==> spec.links[e] == m.Linked(e))
    ensures CreateSpecOf(m).node.Get(c) == Wanted(m, c)
  {
    AllEdgesHold(m);
    LinksAreComplete(m);
    if !IsEdgeKey(c) {
      NoTarget(m, c);
    }
  }

  lemma LinksAreComplete(m: Mutation)
    ensures forall e :: e in SpecLinks(m) <==> m.Linked(e) != []
    ensures forall e :: e in SpecLinks(m) ==> SpecLinks(m)[e] == m.Linked(e)
  {
    forall e ensures (e in SpecLinks(m) <==> m.Linked(e) != []) && (e in SpecLinks(m) ==> SpecLinks(m)[e] == m.Linked(e)) {
      match e
      case Groups =>
      case Children =>
      case UsageLogs =>
    }
  }

  lemma NoTarget(m: Mutation, c: Column)
    requires !IsEdgeKey(c)
    ensures EdgeTarget(m, c) == None
  {
  }

  /** A create that has added the edges of some columns. */
  ghost predicate Holds(created: Created, m: Mutation, added: set<Column>) {
    && created.spec.fields == m.values && created.spec.links == SpecLinks(m)
    && forall c: Column ::
         && (c in created.spec.keys <==> c in added && EdgeTarget(m, c).Some?)
         && (c in created.spec.keys ==> created.spec.keys[c] == EdgeTarget(m, c).value)
         && created.node.Get(c) == if c in added then Wanted(m, c) else if c in m.values then m.values[c] else Zero(c)
  }

  lemma AddOneEdge(created: Created, m: Mutation, added: set<Column>, key: Column, target: Option<int>)
    requires Holds(created, m, added) && target == EdgeTarget(m, key)
    ensures Holds(created.AddEdge(key, target), m, added + {key})
  {
  }

  lemma FieldsAndProxyHold(m: Mutation)
    requires Typed(m)
    ensures Holds(WithProxy(m), m, {ProxyID})
  {
    EveryValueIsCopied(m);
    AddOneEdge(Created(Account(0, m.values, map[]), CreateSpec(m.values, map[], SpecLinks(m))), m, {}, ProxyID, m.proxy);
    assert {} + {ProxyID} == {ProxyID};
  }

  function WithProxy(m: Mutation): Created {
    Created(Account(0, SpecFields(m), map[]), CreateSpec(SpecFields(m), map[], SpecLinks(m))).AddEdge(ProxyID, m.proxy)
  }

  lemma OwnerHolds(m: Mutation)
    requires Typed(m)
    ensures Holds(WithProxy(m).AddEdge(OwnerUserID, m.owner), m, {ProxyID} + {OwnerUserID})
  {
    FieldsAndProxyHold(m);
    AddOneEdge(WithProxy(m), m, {ProxyID}, OwnerUserID, m.owner);
  }

  lemma AllEdgesHold(m: Mutation)
    requires Typed(m)
    ensures Holds(CreateSpecOf(m), m, {ProxyID} + {OwnerUserID} + {ParentAccountID})
  {
    OwnerHolds(m);
    AddOneEdge(WithProxy(m).AddEdge(OwnerUserID, m.owner), m, {ProxyID} + {OwnerUserID}, ParentAccountID, m.parent);
  }

  lemma SpecFits(m: Mutation)
    requires Typed(m)
    ensures forall f :: f in CreateSpecOf(m).spec.fields ==> Fits(f, CreateSpecOf(m).spec.fields[f])
  {
    var spec := CreateSpecOf(m).spec;
    forall f | f in spec.fields ensures Fits(f, spec.fields[f]) {
      assert f in m.values && spec.fields[f] == m.values[f];
    }
  }

  function RowOf(codec: Codec, m: Mutation, id: int, c: Column): Slot
    requires Typed(m)
  {
    SpecFits(m);
    RowSlot(codec, CreateSpecOf(m).spec, id, c)
  }

  /** The scan of the inserted row over a list of columns. */
  function InsertedRow(codec: Codec, m: Mutation, id: int, columns: seq<Column>): seq<Slot>
    requires Typed(m)
  {
    seq(|columns|, i requires 0 <= i < |columns| => RowOf(codec, m, id, columns[i]))
  }

  lemma EdgeKeysAreInts(m: Mutation, c: Column)
    requires EdgeTarget(m, c).Some?
    ensures ScanKind(c) == IntKind
  {
  }

  /** The slot of a column, from the value or the edge that the caller gave. */
  lemma RowIs(codec: Codec, m: Mutation, id: int, c: Column)
    requires Typed(m) && !c.Other? && c != ID
    ensures RowOf(codec, m, id, c) ==
            if EdgeTarget(m, c).Some? then IntSlot(Some(EdgeTarget(m, c).value))
            else if c in m.values then Stored(codec, c, m.values[c])
            else NullSlot(c)
  {
    SpecIsComplete(m, c);
    SpecFits(m);
  }

  /** The slot reads back as the value, where the field was untouched or read before. */
  predicate ReadsBack(codec: Codec, slot: Slot, c: Column, v: Value) {
    Update(codec, Zero(c), slot) == Some(v) && Update(codec, v, slot) == Some(v) && KindOf(slot) == ScanKind(c)
  }

  lemma EdgeReadsBack(codec: Codec, m: Mutation, c: Column)
    requires EdgeTarget(m, c).Some?
    ensures ReadsBack(codec, IntSlot(Some(EdgeTarget(m, c).value)), c, Int(EdgeTarget(m, c).value))
  {
    EdgeKeysAreInts(m, c);
  }

  lemma ValueReadsBack(codec: Codec, c: Column, v: Value)
    requires Invertible(codec) && Fits(c, v)
    ensures ReadsBack(codec, Stored(codec, c, v), c, v)
  {
    StoredReadBack(codec, c, Zero(c), v);
    StoredReadBack(codec, c, v, v);
  }

  lemma NullReadsBack(codec: Codec, c: Column)
    ensures ReadsBack(codec, NullSlot(c), c, Zero(c))
  {
    NullReadBack(codec, c, Zero(c));
  }

  /** Reading one field of an inserted row gives what the caller asked for. */
  lemma ReadBackField(codec: Codec, m: Mutation, id: int, c: Column)
    requires Invertible(codec) && Typed(m) && !c.Other? && c != ID
    ensures ReadsBack(codec, RowOf(codec, m, id, c), c, Wanted(m, c))
  {
    RowIs(codec, m, id, c);
    if EdgeTarget(m, c).Some? {
      EdgeReadsBack(codec, m, c);
    } else if c in m.values {
      ValueReadsBack(codec, c, m.values[c]);
    } else {
      NullReadsBack(codec, c);
    }
  }

  /** A slot of the right type, holding a document that can be decoded if it holds any. */
  predicate Assignable(codec: Codec, c: Column, slot: Slot) {
    KindOf(slot) == ExpectedKind(c) && (slot.BytesSlot? && slot.bytes != [] ==> codec.decode(slot.bytes).Some?)
  }

  lemma {:induction false} AllAssigned(codec: Codec, a: Account, columns: seq<Column>, slots: seq<Slot>)
    requires |columns| <= |slots|
    requires forall i :: 0 <= i < |columns| ==> columns[i].Other? || Assignable(codec, columns[i], slots[i])
    ensures AssignAll(codec, a, columns, slots).Done?
  {
    if columns != [] {
      var n := |columns| - 1;
      AllAssigned(codec, a, columns[..n], slots);
      assert columns[n].Other? || Assignable(codec, columns[n], slots[n]);
    }
  }

  lemma RowIsAssignable(codec: Codec, m: Mutation, id: int, c: Column)
    requires Invertible(codec) && Typed(m) && !c.Other?
    ensures Assignable(codec, c, RowOf(codec, m, id, c))
  {
    KindsAgree(c);
    if c != ID {
      ReadBackField(codec, m, id, c);
    }
  }

  const BLANK := Account(0, map[], map[])

  /** The slots are those of the inserted row, and the columns are known ones. */
  ghost predicate RowSlots(codec: Codec, m: Mutation, id: int, columns: seq<Column>, slots: seq<Slot>) {
    && Typed(m) && |columns| <= |slots|
    && forall i :: 0 <= i < |columns| ==> !columns[i].Other? && slots[i] == RowOf(codec, m, id, columns[i])
  }

  lemma {:induction false} FoldReadsBack(codec: Codec, columns: seq<Column>, slots: seq<Slot>, c: Column, v: Value)
    requires |columns| <= |slots|
    requires forall i :: 0 <= i < |columns| && columns[i] == c ==> ReadsBack(codec, slots[i], c, v)
    ensures Folded(codec, Zero(c), columns, slots, c) == Some(if c in columns then v else Zero(c))
  {
    if columns != [] {
      var n := |columns| - 1;
      FoldReadsBack(codec, columns[..n], slots, c, v);
      InSnoc(columns, c);
      if columns[n] == c {
        assert ReadsBack(codec, slots[n], c, v);
      }
    }
  }

  lemma InSnoc<T>(s: seq<T>, x: T)
    requires s != []
    ensures x in s <==> x in s[..|s| - 1] || s[|s| - 1] == x
  {
    assert s == s[..|s| - 1] + [s[|s| - 1]];
  }

  lemma {:induction false} LastSlotIs(columns: seq<Column>, slots: seq<Slot>, c: Column, slot: Slot)
    requires |columns| <= |slots| && c in columns
    requires forall i :: 0 <= i < |columns| && columns[i] == c ==> slots[i] == slot
    ensures LastSlot(columns, slots, c) == Some(slot)
  {
    var n := |columns| - 1;
    InSnoc(columns, c);
    if columns[n] != c {
      LastSlotIs(columns[..n], slots, c, slot);
    }
  }

  /** Any list of columns, in any order and with repetitions, can be read back. */
  lemma ReadBackColumns(codec: Codec, m: Mutation, id: int, columns: seq<Column>, slots: seq<Slot>)
    requires Invertible(codec) && RowSlots(codec, m, id, columns, slots)
    ensures var r := AssignAll(codec, BLANK, columns, slots);
            && r.Done? && (ID in columns ==> r.account.id == id)
            && forall c: Column :: !c.Other? && c != ID ==> r.account.Get(c) == if c in columns then Wanted(m, c) else Zero(c)
  {
    forall i | 0 <= i < |columns| ensures Assignable(codec, columns[i], slots[i]) {
      RowIsAssignable(codec, m, id, columns[i]);
    }
    AllAssigned(codec, BLANK, columns, slots);
    AssignedId(codec, BLANK, columns, slots);
    if ID in columns {
      LastSlotIs(columns, slots, ID, IntSlot(Some(id)));
    }
    forall c: Column | !c.Other? && c != ID
      ensures AssignAll(codec, BLANK, columns, slots).account.Get(c) == if c in columns then Wanted(m, c) else Zero(c)
    {
      FieldsAreFolds(codec, BLANK, columns, slots, c);
      ReadBackField(codec, m, id, c);
      FoldReadsBack(codec, columns, slots, c, Wanted(m, c));
    }
  }

  /** Inserting the row of a mutation and reading it back over all columns gives an
      account equal to the node that the create returns, foreign keys included. */
  lemma WriteThenRead(codec: Codec, m: Mutation, id: int)
    requires Invertible(codec) && Typed(m)
    ensures var r := AssignAll(codec, Account(0, map[], map[]), ALL_COLUMNS, InsertedRow(codec, m, id, ALL_COLUMNS));
            && r.Done? && SameFields(r.account, CreateSpecOf(m).node.(id := id))
            && (forall c: Column :: !c.Other? && c != ID ==> r.account.Get(c) == Wanted(m, c))
  {
    NoOtherColumns();
    ReadBackColumns(codec, m, id, ALL_COLUMNS, InsertedRow(codec, m, id, ALL_COLUMNS));
    forall c: Column | !c.Other? && c != ID ensures c in ALL_COLUMNS && CreateSpecOf(m).node.Get(c) == Wanted(m, c) {
      EveryColumn(c);
      SpecIsComplete(m, c);
    }
    EveryColumn(ID);
  }

  lemma NoOtherColumns()
    ensures forall i :: 0 <= i < |ALL_COLUMNS| ==> !ALL_COLUMNS[i].Other?
  {
  }

  lemma EveryColumn(c: Column)
    requires !c.Other?
    ensures c in ALL_COLUMNS
  {
  }

  /******* Defaults and checks *******/

  /** The defaults of the schema; some are functions that may be uninitialized. */
  datatype Schema = Schema(default_: Column -> Option<Value>, valid: (Column, Value) -> bool)

  const DEFAULTED := [
    CreatedAt, UpdatedAt, AccountLevel, Credentials, Extra, ShareMode, ShareStatus, Concurrency,
    LoadFactorPaidCeiling, Priority, RateMultiplier, Status, AutoPauseOnExpired, Schedulable, QuotaDimension
  ]

  /** A required field, a validated field, or both. */
  datatype Check = Check(column: Column, required: bool, validated: bool)

  const CHECKS := [
    Check(CreatedAt, true, false),
    Check(UpdatedAt, true, false),
    Check(Name, true, true),
    Check(AccountLevel, true, true),
    Check(Platform, true, true),
    Check(Type, true, true),
    Check(Credentials, true, false),
    Check(Extra, true, false),
    Check(ShareMode, true, true),
    Check(ShareStatus, true, true),
    Check(Concurrency, true, false),
    Check(LoadFactorPaidCeiling, true, false),
    Check(Priority, true, false),
    Check(RateMultiplier, true, false),
    Check(Status, true, true),
    Check(AutoPauseOnExpired, true, false),
    Check(Schedulable, true, false),
    Check(SessionWindowStatus, false, true),
    Check(QuotaDimension, true, true)
  ]

  datatype Complaint = Missing(column: Column) | Invalid(column: Column)

  /** Fills in defaults from the front; the first uninitialized one stops it. */
  function Defaulted(schema: Schema, values: map<Column, Value>, columns: seq<Column>): (map<Column, Value>, Option<Column>)
    decreases |columns|
  {
    if columns == [] then (values, None)
    else
      var c := columns[0];
      if c in values then Defaulted(schema, values, columns[1..])
      else
        match schema.default_(c)
        case None => (values, Some(c))
        case Some(v) => Defaulted(schema, values[c := v], columns[1..])
  }

  function CheckOne(schema: Schema, values: map<Column, Value>, k: Check): Option<Complaint> {
    if k.column !in values then (if k.required then Some(Missing(k.column)) else None)
    else if k.validated && !schema.valid(k.column, values[k.column]) then Some(Invalid(k.column))
    else None
  }

  /** The first complaint, if there is one. */
  function Complaints(schema: Schema, values: map<Column, Value>, checks: seq<Check>): Option<Complaint> {
    if checks == [] then None
    else
      var first := CheckOne(schema, values, checks[0]);
      if first.Some? then first else Complaints(schema, values, checks[1..])
  }

  lemma {:induction false} ComplaintsExactly(schema: Schema, values: map<Column, Value>, checks: seq<Check>)
    ensures Complaints(schema, values, checks).None? <==>
            forall i :: 0 <= i < |checks| ==> CheckOne(schema, values, checks[i]).None?
    ensures Complaints(schema, values, checks).Some? ==> exists i :: FirstComplaint(schema, values, checks, i)
  {
    if checks != [] {
      ComplaintsExactly(schema, values, checks[1..]);
      var rest := checks[1..];
      assert forall i :: 1 <= i < |checks| ==> checks[i] == rest[i - 1];
      if CheckOne(schema, values, checks[0]).Some? {
        assert FirstComplaint(schema, values, checks, 0);
      } else if Complaints(schema, values, rest).Some? {
        var i :| FirstComplaint(schema, values, rest, i);
        assert FirstComplaint(schema, values, checks, i + 1);
      }
    }
  }

  /** The i-th check is the first that complains, and its complaint is reported. */
  ghost predicate FirstComplaint(schema: Schema, values: map<Column, Value>, checks: seq<Check>, i: int) {
    && 0 <= i < |checks| && CheckOne(schema, values, checks[i]).Some?
    && CheckOne(schema, values, checks[i]) == Complaints(schema, values, checks)
    && forall j :: 0 <= j < i ==> CheckOne(schema, values, checks[j]).None?
  }

  /** The defaults stop at the i-th column: it is the first that is unset and has none. */
  ghost predicate StopsAt(schema: Schema, values: map<Column, Value>, columns: seq<Column>, i: nat) {
    && i <= |columns|
    && (i < |columns| ==> columns[i] !in values && schema.default_(columns[i]).None?)
    && (forall j :: 0 <= j < i ==> columns[j] in values || schema.default_(columns[j]).Some?)
  }

  /** What was set stays; each listed column up to the first that is unset and has no
      default holds its own default, and nothing else is filled in. */
  ghost predicate FilledUpTo(schema: Schema, values: map<Column, Value>, columns: seq<Column>, i: nat, after: map<Column, Value>)
    requires i <= |columns|
  {
    && (forall c :: c in values ==> c in after && after[c] == values[c])
    && (forall c :: c in after && c !in values ==> c in columns[..i] && schema.default_(c) == Some(after[c]))
    && (forall c :: c in columns[..i] ==> c in after)
  }

  lemma {:induction false} DefaultedKeeps(schema: Schema, values: map<Column, Value>, columns: seq<Column>) returns (i: nat)
    ensures StopsAt(schema, values, columns, i)
    ensures var (after, stop) := Defaulted(schema, values, columns);
            && FilledUpTo(schema, values, columns, i, after)
            && (if i < |columns| then stop == Some(columns[i]) && columns[i] !in after else stop == None)
    decreases |columns|
  {
    if columns == [] {
      i := 0;
    } else {
      var c, rest := columns[0], columns[1..];
      if c in values {
        i := DefaultedKeeps(schema, values, rest);
        FilledCons(schema, values, values, columns, i, Defaulted(schema, values, rest).0);
        i := i + 1;
      } else if schema.default_(c).Some? {
        var values' := values[c := schema.default_(c).value];
        i := DefaultedKeeps(schema, values', rest);
        FilledCons(schema, values, values', columns, i, Defaulted(schema, values', rest).0);
        i := i + 1;
      } else {
        i := 0;
      }
    }
  }

  lemma FilledCons(
    schema: Schema, values: map<Column, Value>, values': map<Column, Value>, columns: seq<Column>, i: nat, after: map<Column, Value>)
    requires columns != [] && StopsAt(schema, values', columns[1..], i) && FilledUpTo(schema, values', columns[1..], i, after)
    requires var c := columns[0];
             if c in values then values' == values else schema.default_(c).Some? && values' == values[c := schema.default_(c).value]
    ensures StopsAt(schema, values, columns, i + 1) && FilledUpTo(schema, values, columns, i + 1, after)
  {
    var rest := columns[1..];
    assert columns[..i + 1] == [columns[0]] + rest[..i];
    assert forall j :: 1 <= j < |columns| ==> columns[j] == rest[j - 1];
  }

  lemma DefaultedAreRequired(c: Column)
    requires c in DEFAULTED
    ensures Check(c, true, false) in CHECKS || Check(c, true, true) in CHECKS
  {
  }

  lemma RequiredWithoutDefault(k: Check)
    requires k in CHECKS && k.required && k.column !in DEFAULTED
    ensures k.column in {Name, Platform, Type}
  {
  }

  /** When filling in the defaults stops with an error that the caller drops, the
      checks reject the builder. */
  lemma DroppedErrorIsCaught(schema: Schema, values: map<Column, Value>)
    requires Defaulted(schema, values, DEFAULTED).1.Some?
    ensures Complaints(schema, Defaulted(schema, values, DEFAULTED).0, CHECKS).Some?
  {
    var (after, stop) := Defaulted(schema, values, DEFAULTED);
    var n := DefaultedKeeps(schema, values, DEFAULTED);
    assert stop.value in DEFAULTED && stop.value !in after;
    DefaultedAreRequired(stop.value);
    var i :| 0 <= i < |CHECKS| && CHECKS[i].column == stop.value && CHECKS[i].required;
    ComplaintsExactly(schema, after, CHECKS);
    assert CheckOne(schema, after, CHECKS[i]).Some?;
  }

  /** After all defaults are filled in, only name, platform and type can be missing. */
  lemma OnlyThreeCanBeMissing(schema: Schema, values: map<Column, Value>)
    requires Defaulted(schema, values, DEFAULTED).1.None?
    ensures var complaint := Complaints(schema, Defaulted(schema, values, DEFAULTED).0, CHECKS);
            complaint.Some? && complaint.value.Missing? ==> complaint.value.column in {Name, Platform, Type}
  {
    var after := Defaulted(schema, values, DEFAULTED).0;
    var n := DefaultedKeeps(schema, values, DEFAULTED);
    assert DEFAULTED[..n] == DEFAULTED;
    ComplaintsExactly(schema, after, CHECKS);
    var complaint := Complaints(schema, after, CHECKS);
    if complaint.Some? && complaint.value.Missing? {
      var i :| FirstComplaint(schema, after, CHECKS, i);
      assert forall c :: c in DEFAULTED ==> c in after;
      RequiredWithoutDefault(CHECKS[i]);
    }
  }
}

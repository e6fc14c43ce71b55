/** The optimistic-concurrency partial update of a stored record.

    The resolver's `request` step turns the call arguments into one
    conditional store update: the `id` argument is the key, the
    `expectedVersion` argument is the condition on the stored `version`,
    every other argument becomes a "set" (or a "remove" for null and
    undefined), and `version` always becomes "increment by 1".  The
    store applies such an update atomically or not at all; `response`
    hands the store's result back and records, without raising, any
    error the store reported. */
module UpdatePost {
  import opened Wrappers

  /** A JavaScript value as it can appear in the arguments or in a stored
      attribute.  Only the distinctions the resolver and the store make
      are kept: nullish or not, and numbers for the version counter. */
  datatype Value = Undefined | Null | Bool(b: bool) | Num(n: int) | Str(s: string)

  /** The test behind `??`: true exactly for null and undefined. */
  predicate IsNullish(v: Value) {
    v.Undefined? || v.Null?
  }

  /** The own properties of `ctx.args` in enumeration order, as
      `Object.entries` lists them. */
  type Entries = seq<(string, Value)>

  const IdKey := "id"
  const ExpectedVersionKey := "expectedVersion"
  const VersionKey := "version"

  /** The property names listed by some entries. */
  function KeysOf(e: Entries): set<string> {
    if e == [] then {} else {e[0].0} + KeysOf(e[1..])
  }

  /** Reading property `k` of the object the entries describe: the value of
      its last listing, or `undefined` when it is not listed. */
  function Lookup(e: Entries, k: string): Value {
    if e == [] then Undefined
    else if k in KeysOf(e[1..]) then Lookup(e[1..], k)
    else if e[0].0 == k then e[0].1
    else Undefined
  }

  /** `const { id, expectedVersion, ...rest } = ctx.args`: the entries other
      than the two reserved arguments, in the same order. */
  function Rest(e: Entries): (r: Entries)
    ensures KeysOf(r) == KeysOf(e) - {IdKey, ExpectedVersionKey}
    ensures forall k :: k != IdKey && k != ExpectedVersionKey ==> Lookup(r, k) == Lookup(e, k)
  {
    if e == [] then []
    else if e[0].0 == IdKey || e[0].0 == ExpectedVersionKey then Rest(e[1..])
    else [e[0]] + Rest(e[1..])
  }

  /** One attribute instruction of a store update. */
  datatype FieldOp = Set(value: Value) | Remove | Increment(amount: int)

  /** `value ?? ddb.operations.remove()`. */
  function OpFor(v: Value): (op: FieldOp)
    ensures op.Remove? <==> IsNullish(v)
    ensures op.Set? <==> !IsNullish(v)
    ensures op.Set? ==> op.value == v
  {
    if IsNullish(v) then Remove else Set(v)
  }

  /** The `reduce` of `request`: each entry writes its instruction into the
      accumulator, so a later listing of the same name overwrites an
      earlier one. */
  function FoldValues(e: Entries, acc: map<string, FieldOp>): (r: map<string, FieldOp>)
    ensures r.Keys == acc.Keys + KeysOf(e)
    ensures forall k :: k in KeysOf(e) ==> r[k] == OpFor(Lookup(e, k))
    ensures forall k :: k in acc && k !in KeysOf(e) ==> r[k] == acc[k]
    decreases |e|
  {
    if e == [] then acc
    else FoldValues(e[1..], acc[e[0].0 := OpFor(e[0].1)])
  }

  /** The update description handed to the store: the key, the expected
      version of the condition `version == expectedVersion`, and one
      instruction per attribute. */
  datatype UpdateRequest = UpdateRequest(key: Value, expectedVersion: Value, update: map<string, FieldOp>)

  /** `request(ctx)`.  The version instruction is written after the spread
      of the argument instructions, so it replaces any `version` argument. */
  function Request(args: Entries): (r: UpdateRequest)
    ensures r.key == Lookup(args, IdKey)
    ensures r.expectedVersion == Lookup(args, ExpectedVersionKey)
    ensures r.update.Keys == (KeysOf(args) - {IdKey, ExpectedVersionKey}) + {VersionKey}
    ensures IdKey !in r.update && ExpectedVersionKey !in r.update
    ensures r.update[VersionKey] == Increment(1)
    ensures forall k :: k in r.update && k != VersionKey ==>
              (r.update[k] == Remove <==> IsNullish(Lookup(args, k))) &&
              (!IsNullish(Lookup(args, k)) ==> r.update[k] == Set(Lookup(args, k)))
  {
    var values := FoldValues(Rest(args), map[]);
    UpdateRequest(Lookup(args, IdKey), Lookup(args, ExpectedVersionKey), values[VersionKey := Increment(1)])
  }

  /** A stored record: attribute name to value. */
  type Record = map<string, Value>

  /** An error as the store reports it: a message and a type. */
  datatype StoreError = StoreError(message: string, errorType: string)

  /** The store's answer when the condition does not hold, the record being
      absent included. */
  const ConditionFailed := StoreError("The conditional request failed", "DynamoDB:ConditionalCheckFailedException")

  /** The store's answer when an increment targets an attribute that is not
      a number. */
  const IncrementTypeMismatch := StoreError("An operand in the update expression has an incorrect data type", "DynamoDB:DynamoDbException")

  /** The condition `version == expectedVersion` evaluated on the record
      stored under the key; an absent record or an absent version fails it. */
  predicate ConditionHolds(records: map<Value, Record>, req: UpdateRequest) {
    req.key in records && VersionKey in records[req.key] && records[req.key][VersionKey] == req.expectedVersion
  }

  /** Every increment targets an absent attribute or a number. */
  predicate Incrementable(rec: Record, ops: map<string, FieldOp>) {
    forall k :: k in ops && ops[k].Increment? && k in rec ==> rec[k].Num?
  }

  /** The numeric current value of an attribute, absent counting as 0. */
  function NumberOr0(rec: Record, k: string): int {
    if k in rec && rec[k].Num? then rec[k].n else 0
  }

  /** The record after the instructions: removed attributes are gone, set
      ones hold their new value, incremented ones their sum, the rest keep
      their value. */
  function ApplyOps(rec: Record, ops: map<string, FieldOp>): (r: Record)
    ensures forall k :: k in ops && ops[k].Remove? ==> k !in r
    ensures forall k :: k in ops && ops[k].Set? ==> k in r && r[k] == ops[k].value
    ensures forall k :: k in ops && ops[k].Increment? ==> k in r && r[k] == Num(NumberOr0(rec, k) + ops[k].amount)
    ensures forall k :: k !in ops ==> (k in r <==> k in rec) && (k in rec ==> r[k] == rec[k])
  {
    map k | k in rec.Keys + ops.Keys && !(k in ops && ops[k].Remove?) ::
      if k !in ops then rec[k]
      else match ops[k]
        case Set(v) => v
        case Increment(d) => Num(NumberOr0(rec, k) + d)
        case Remove => Undefined
  }

  /** The answer of one atomic conditional update and the records after it. */
  datatype Outcome = Outcome(result: Result<Record, StoreError>, records: map<Value, Record>)

  /** The store's atomic conditional update: either the whole update is
      applied to the one record under the key, or nothing changes. */
  function ConditionalUpdate(records: map<Value, Record>, req: UpdateRequest): (o: Outcome)
    ensures o.result.Failure? ==> o.records == records
    ensures !ConditionHolds(records, req) ==> o.result == Failure(ConditionFailed)
    ensures o.result.Success? ==>
              ConditionHolds(records, req) &&
              o.result.value == ApplyOps(records[req.key], req.update) &&
              o.records == records[req.key := o.result.value]
  {
    if !ConditionHolds(records, req) then Outcome(Failure(ConditionFailed), records)
    else if !Incrementable(records[req.key], req.update) then Outcome(Failure(IncrementTypeMismatch), records)
    else
      var rec := ApplyOps(records[req.key], req.update);
      Outcome(Success(rec), records[req.key := rec])
  }

  /** What the resolver sees of the store call: `ctx.error` and `ctx.result`. */
  datatype Context = Context(error: Option<StoreError>, result: Option<Record>)

  /** The context the store's answer produces: a result on success, an
      error and no result otherwise. */
  function ContextOf(res: Result<Record, StoreError>): Context {
    match res
    case Success(rec) => Context(None, Some(rec))
    case Failure(e) => Context(Some(e), None)
  }

  /** What `response` produces: the returned value and the errors appended
      to the request so far. */
  datatype Reply = Reply(returned: Option<Record>, errors: seq<StoreError>)

  /** `response(ctx)`, given the errors already appended to the request. */
  function Response(ctx: Context, appended: seq<StoreError>): (r: Reply)
    ensures r.returned == ctx.result
    ensures |r.errors| == |appended| + (if ctx.error.Some? then 1 else 0)
    ensures r.errors[..|appended|] == appended
    ensures ctx.error.Some? ==> r.errors[|appended|].message == ctx.error.value.message &&
                                r.errors[|appended|].errorType == ctx.error.value.errorType
  {
    match ctx.error
    case Some(e) => Reply(ctx.result, appended + [StoreError(e.message, e.errorType)])
    case None => Reply(ctx.result, appended)
  }

  /** A store that holds records by key and applies one conditional update
      at a time. */
  class RecordStore {
    var records: map<Value, Record>

    constructor (initial: map<Value, Record>)
      ensures records == initial
    {
      records := initial;
    }

    /** The store's conditional update primitive: applies the whole update to
        the record under the key when its version matches, else leaves every
        record as it was. */
    method Update(req: UpdateRequest) returns (res: Result<Record, StoreError>)
      modifies this
      ensures res == ConditionalUpdate(old(records), req).result
      ensures records == ConditionalUpdate(old(records), req).records
      ensures res.Failure? ==> records == old(records)
      ensures res.Success? ==> ConditionHolds(old(records), req) && records == old(records)[req.key := res.value]
    {
      if !ConditionHolds(records, req) {
        res := Failure(ConditionFailed);
      } else if !Incrementable(records[req.key], req.update) {
        res := Failure(IncrementTypeMismatch);
      } else {
        var rec := ApplyOps(records[req.key], req.update);
        records := records[req.key := rec];
        res := Success(rec);
      }
    }

    /** One call of the resolver: `request`, the store update, `response`. */
    method Resolve(args: Entries, appended: seq<StoreError>) returns (reply: Reply)
      modifies this
      ensures reply == Response(ContextOf(ConditionalUpdate(old(records), Request(args)).result), appended)
      ensures records == ConditionalUpdate(old(records), Request(args)).records
    {
      var res := Update(Request(args));
      reply := Response(ContextOf(res), appended);
    }
  }

  // ---------------------------------------------------------------------
  // Properties of the resolver and the store.

  /** The update depends only on the arguments other than `id` and
      `expectedVersion`: it is the one built from those arguments alone. */
  lemma {:induction false} ReservedArgumentsIgnored(args: Entries)
    ensures Request(args).update == Request(Rest(args)).update
  {
    var u, v := Request(args).update, Request(Rest(args)).update;
    assert KeysOf(Rest(Rest(args))) == KeysOf(Rest(args));
    forall k | k in u
      ensures k in v && u[k] == v[k]
    {
      if k != VersionKey {
        assert Lookup(Rest(args), k) == Lookup(args, k);
      }
    }
    assert u.Keys == v.Keys;
  }

  /** Null and undefined become removes; every other value, `0`, `false`
      and `""` included, becomes a set to exactly that value. */
  lemma FalsyValuesAreSet(args: Entries, k: string)
    requires k in KeysOf(args) && k != IdKey && k != ExpectedVersionKey && k != VersionKey
    requires Lookup(args, k) in {Num(0), Bool(false), Str("")}
    ensures Request(args).update[k] == Set(Lookup(args, k))
  {
  }

  /** Listing one more entry adds its name. */
  lemma {:induction false} KeysOfAppend(e: Entries, k: string, x: Value)
    ensures KeysOf(e + [(k, x)]) == KeysOf(e) + {k}
    decreases |e|
  {
    if e != [] {
      assert (e + [(k, x)])[1..] == e[1..] + [(k, x)];
      KeysOfAppend(e[1..], k, x);
    }
  }

  /** A name listed last reads as that listing; other names read as before. */
  lemma {:induction false} LookupAppend(e: Entries, k: string, x: Value, j: string)
    ensures Lookup(e + [(k, x)], j) == if j == k then x else Lookup(e, j)
    decreases |e|
  {
    if e != [] {
      var e' := e + [(k, x)];
      assert e'[1..] == e[1..] + [(k, x)];
      KeysOfAppend(e[1..], k, x);
      LookupAppend(e[1..], k, x, j);
    }
  }

  /** A `version` argument, whatever its value, is overridden by the
      increment: the request is the one built without it. */
  lemma {:induction false} VersionArgumentIgnored(args: Entries, v: Value)
    ensures Request(args + [(VersionKey, v)]) == Request(args)
  {
    var args' := args + [(VersionKey, v)];
    KeysOfAppend(args, VersionKey, v);
    forall j | j != VersionKey
      ensures Lookup(args', j) == Lookup(args, j)
    {
      LookupAppend(args, VersionKey, v, j);
    }
    var u, w := Request(args').update, Request(args).update;
    forall k | k in u
      ensures k in w && u[k] == w[k]
    {
    }
    assert u.Keys == w.Keys;
  }

  /** A successful update through the resolver: the version goes up by
      exactly 1, set arguments overwrite, null/undefined arguments remove,
      attributes not named by the arguments keep their value, and records
      under other keys are untouched. */
  lemma SuccessfulUpdate(records: map<Value, Record>, args: Entries, v: int)
    requires Lookup(args, IdKey) in records
    requires VersionKey in records[Lookup(args, IdKey)]
    requires records[Lookup(args, IdKey)][VersionKey] == Num(v)
    requires Lookup(args, ExpectedVersionKey) == Num(v)
    ensures var o := ConditionalUpdate(records, Request(args));
            var old_ := records[Lookup(args, IdKey)];
            o.result.Success? &&
            var rec := o.result.value;
            o.records == records[Lookup(args, IdKey) := rec] &&
            rec[VersionKey] == Num(v + 1) &&
            (forall k :: k in KeysOf(args) && k != IdKey && k != ExpectedVersionKey && k != VersionKey ==>
               if IsNullish(Lookup(args, k)) then k !in rec else k in rec && rec[k] == Lookup(args, k)) &&
            (forall k :: (k !in KeysOf(args) || k == IdKey || k == ExpectedVersionKey) && k != VersionKey ==>
               (k in rec <==> k in old_) && (k in old_ ==> rec[k] == old_[k]))
  {
    var req := Request(args);
    var old_ := records[req.key];
    assert ConditionHolds(records, req);
    assert Incrementable(old_, req.update);
    assert ConditionalUpdate(records, req).result == Success(ApplyOps(old_, req.update));
    RequestApplied(old_, args);
  }

  /** The record an update built by `request` leaves, attribute by
      attribute. */
  lemma RequestApplied(old_: Record, args: Entries)
    ensures var rec := ApplyOps(old_, Request(args).update);
            rec[VersionKey] == Num(NumberOr0(old_, VersionKey) + 1) &&
            (forall k :: k in KeysOf(args) && k != IdKey && k != ExpectedVersionKey && k != VersionKey ==>
               if IsNullish(Lookup(args, k)) then k !in rec else k in rec && rec[k] == Lookup(args, k)) &&
            (forall k :: (k !in KeysOf(args) || k == IdKey || k == ExpectedVersionKey) && k != VersionKey ==>
               (k in rec <==> k in old_) && (k in old_ ==> rec[k] == old_[k]))
  {
    var ops := Request(args).update;
    var rec := ApplyOps(old_, ops);
    forall k | k in KeysOf(args) && k != IdKey && k != ExpectedVersionKey && k != VersionKey
      ensures if IsNullish(Lookup(args, k)) then k !in rec else k in rec && rec[k] == Lookup(args, k)
    {
      assert k in ops;
    }
    forall k | (k !in KeysOf(args) || k == IdKey || k == ExpectedVersionKey) && k != VersionKey
      ensures (k in rec <==> k in old_) && (k in old_ ==> rec[k] == old_[k])
    {
      assert k !in ops;
    }
  }

  /** The stored `id` attribute never changes through an update built by
      `request`. */
  lemma IdAttributePreserved(records: map<Value, Record>, args: Entries)
    requires ConditionalUpdate(records, Request(args)).result.Success?
    ensures var rec := ConditionalUpdate(records, Request(args)).result.value;
            var old_ := records[Lookup(args, IdKey)];
            (IdKey in rec <==> IdKey in old_) && (IdKey in old_ ==> rec[IdKey] == old_[IdKey])
  {
  }

  /** A failed condition changes nothing and reports the conditional-check
      error, whose message and type `response` appends unchanged. */
  lemma FailedConditionChangesNothing(records: map<Value, Record>, args: Entries, appended: seq<StoreError>)
    requires !ConditionHolds(records, Request(args))
    ensures ConditionalUpdate(records, Request(args)) == Outcome(Failure(ConditionFailed), records)
    ensures Response(ContextOf(Failure(ConditionFailed)), appended) == Reply(None, appended + [ConditionFailed])
  {
  }

  /** A success through the resolver returns the new record and appends no
      error. */
  lemma SuccessReplies(records: map<Value, Record>, args: Entries, appended: seq<StoreError>)
    requires ConditionalUpdate(records, Request(args)).result.Success?
    ensures var o := ConditionalUpdate(records, Request(args));
            Response(ContextOf(o.result), appended) == Reply(Some(o.records[Lookup(args, IdKey)]), appended)
  {
  }

  /** Once an update with a given expected version has succeeded, any
      further request with that same expected version against the same key
      fails and leaves the records as they are: no two updates act on the
      same version. */
  lemma {:induction false} StaleVersionRejected(records: map<Value, Record>, first: UpdateRequest, second: UpdateRequest)
    requires VersionKey in first.update && first.update[VersionKey] == Increment(1)
    requires ConditionalUpdate(records, first).result.Success?
    requires second.key == first.key && second.expectedVersion == first.expectedVersion
    ensures var mid := ConditionalUpdate(records, first).records;
            ConditionalUpdate(mid, second) == Outcome(Failure(ConditionFailed), mid)
  {
    var mid := ConditionalUpdate(records, first).records;
    var n := NumberOr0(records[first.key], VersionKey);
    assert records[first.key][VersionKey].Num?;
    assert mid[first.key][VersionKey] == Num(n + 1);
    assert first.expectedVersion == Num(n);
  }

  /** Two requests racing on the same key with the same expected version,
      applied one after the other: at most one succeeds. */
  lemma {:induction false} RaceHasAtMostOneWinner(records: map<Value, Record>, a: Entries, b: Entries)
    requires Lookup(a, IdKey) == Lookup(b, IdKey)
    requires Lookup(a, ExpectedVersionKey) == Lookup(b, ExpectedVersionKey)
    ensures var first := ConditionalUpdate(records, Request(a));
            var second := ConditionalUpdate(first.records, Request(b));
            !(first.result.Success? && second.result.Success?)
  {
    var first := ConditionalUpdate(records, Request(a));
    if first.result.Success? {
      StaleVersionRejected(records, Request(a), Request(b));
    }
  }

  /** The arguments of an example update: `{id: "p1", expectedVersion: 3,
      title: "B", draft: null}`. */
  const ExampleArgs: Entries := [(IdKey, Str("p1")), (ExpectedVersionKey, Num(3)), ("title", Str("B")), ("draft", Null)]

  /** A sample stored record: `{id: "p1", version: 3, title: "A", draft: true}`. */
  const ExampleStored: Record := map[IdKey := Str("p1"), VersionKey := Num(3), "title" := Str("A"), "draft" := Bool(true)]

  /** The request built from the example arguments. */
  lemma ExampleRequest()
    ensures Request(ExampleArgs) == UpdateRequest(Str("p1"), Num(3), map["title" := Set(Str("B")), "draft" := Remove, VersionKey := Increment(1)])
  {
    var args := ExampleArgs;
    assert KeysOf(args[3..]) == {"draft"};
    assert KeysOf(args[2..]) == {"title", "draft"};
    assert KeysOf(args[1..]) == {ExpectedVersionKey, "title", "draft"};
    assert Lookup(args[2..], "title") == Str("B");
    assert Lookup(args[1..], "title") == Str("B");
    assert Lookup(args[3..], "draft") == Null;
    assert Lookup(args[2..], "draft") == Null;
    assert Lookup(args[1..], "draft") == Null;
    assert KeysOf(args) == {IdKey, ExpectedVersionKey, "title", "draft"};
    assert Lookup(args, IdKey) == Str("p1");
    assert Lookup(args, ExpectedVersionKey) == Num(3);
    var u := Request(args).update;
    assert u.Keys == {"title", "draft", VersionKey};
    assert u["title"] == Set(Str("B")) && u["draft"] == Remove;
  }

  /** An example update end to end: the sample record becomes `{id: "p1", version: 4,
      title: "B"}` (`draft` removed), and a second call with expected
      version 3 is rejected with the record left at version 4. */
  lemma ExampleUpdate()
    ensures var o := ConditionalUpdate(map[Str("p1") := ExampleStored], Request(ExampleArgs));
            var updated := map[IdKey := Str("p1"), VersionKey := Num(4), "title" := Str("B")];
            o == Outcome(Success(updated), map[Str("p1") := updated]) &&
            ConditionalUpdate(o.records, UpdateRequest(Str("p1"), Num(3), map["title" := Set(Str("C")), VersionKey := Increment(1)]))
              == Outcome(Failure(ConditionFailed), o.records)
  {
    ExampleRequest();
    ExampleApply(Request(ExampleArgs));
  }

  /** The store half of the example update, for the request built above. */
  lemma ExampleApply(req: UpdateRequest)
    requires req == UpdateRequest(Str("p1"), Num(3), map["title" := Set(Str("B")), "draft" := Remove, VersionKey := Increment(1)])
    ensures var o := ConditionalUpdate(map[Str("p1") := ExampleStored], req);
            var updated := map[IdKey := Str("p1"), VersionKey := Num(4), "title" := Str("B")];
            o == Outcome(Success(updated), map[Str("p1") := updated]) &&
            ConditionalUpdate(o.records, UpdateRequest(Str("p1"), Num(3), map["title" := Set(Str("C")), VersionKey := Increment(1)]))
              == Outcome(Failure(ConditionFailed), o.records)
  {
    var rec := ApplyOps(ExampleStored, req.update);
    var updated := map[IdKey := Str("p1"), VersionKey := Num(4), "title" := Str("B")];
    assert ConditionHolds(map[Str("p1") := ExampleStored], req);
    assert Incrementable(ExampleStored, req.update);
    assert rec[IdKey] == Str("p1") && rec["title"] == Str("B") && rec[VersionKey] == Num(4);
    assert "draft" !in rec;
    assert rec.Keys == updated.Keys;
    assert rec == updated;
  }
}

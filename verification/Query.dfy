/**
 * Query messages (internal/protostream/query.go): the request the client writes, read back by the message's
 * definition, and the response it reads, printed by the message's definition.
 */
module Query {
  import opened Wrappers
  import opened Words
  import opened Varint
  import opened Protobuf
  import opened Wrapped
  import Wire

  datatype Param = Param(name: Bytes, value: Bytes)

  datatype Request = Request(query: Bytes, startOffset: int64, maxResults: int32, params: seq<Param>)

  datatype Response = Response(numResults: int32, projectionSize: int32, results: seq<Bytes>, hitCount: int32,
                               hitCountExact: bool)

  // ---------- the request ----------

  function ParamFields(p: Param): seq<Field> {
    [Field(1, LENGTH_DELIMITED, p.name), Field(2, LENGTH_DELIMITED, p.value)]
  }

  function ParamField(p: Param): Field {
    Field(5, LENGTH_DELIMITED, PrintFields(ParamFields(p)))
  }

  function ParamsFields(params: seq<Param>): (r: seq<Field>)
    ensures |r| == |params|
  {
    seq(|params|, i requires 0 <= i < |params| => ParamField(params[i]))
  }

  /** An offset of zero or less is left out, and so is a negative limit. */
  function OffsetFields(r: Request): seq<Field> {
    if r.startOffset > 0 then [Field(3, VARINT, Print(ToUint64(r.startOffset)))] else []
  }

  function LimitFields(r: Request): seq<Field> {
    if r.maxResults >= 0 then [Field(4, VARINT, Print(ToUint64(r.maxResults)))] else []
  }

  function HeadFields(r: Request): seq<Field> {
    [Field(1, LENGTH_DELIMITED, r.query)] + OffsetFields(r) + LimitFields(r)
  }

  function RequestFields(r: Request): seq<Field> {
    HeadFields(r) + ParamsFields(r.params)
  }

  function TakeParam(acc: Param, f: Field): Option<Param> {
    if f.number == 1 then Some(acc.(name := f.value))
    else if f.number == 2 then Some(acc.(value := f.value))
    else Some(acc)
  }

  /** The message's definition, as a server reads it. */
  function TakeRequest(acc: Request, f: Field): Option<Request> {
    if f.number == 1 then Some(acc.(query := f.value))
    else if f.number == 3 then
      match Uvarint(f.value) case None => None case Some(v) => Some(acc.(startOffset := ToInt64(v)))
    else if f.number == 4 then
      match Uvarint(f.value) case None => None case Some(v) => Some(acc.(maxResults := ToInt32(Truncated32(v))))
    else if f.number == 5 then
      match Collect(TakeParam, Param([], []), f.value)
      case Good(p) => Some(acc.(params := acc.params + [p]))
      case Error => None
      case Crash => None
    else Some(acc)
  }

  /** What is left of a request when offsets of zero or less, and negative limits, mean the default. */
  function Meaning(r: Request): Request {
    r.(startOffset := if r.startOffset > 0 then r.startOffset else 0,
       maxResults := if r.maxResults >= 0 then r.maxResults else -1)
  }

  ghost predicate RequestFits(r: Request) {
    AllWellFormed(RequestFields(r)) && Buildable(PrintFields(RequestFields(r)))
  }

  lemma ParamTaken(acc: Request, p: Param)
    requires Buildable(PrintFields(ParamFields(p)))
    ensures TakeRequest(acc, ParamField(p)) == Some(acc.(params := acc.params + [p]))
  {
    TwoFields(ParamFields(p)[0], ParamFields(p)[1]);
    CollectFields(TakeParam, Param([], []), ParamFields(p));
    RunTwo(TakeParam, Param([], []), ParamFields(p)[0], ParamFields(p)[1]);
  }

  lemma ParamLeads(acc: Request, p: Param, next: Request)
    requires Buildable(PrintFields(ParamFields(p))) && next == acc.(params := acc.params + [p])
    ensures Leads(TakeRequest, acc, [ParamField(p)], next)
  {
    ParamTaken(acc, p);
    LeadsOne(TakeRequest, acc, ParamField(p), next);
  }

  ghost predicate ParamsFit(params: seq<Param>) {
    forall i :: 0 <= i < |params| ==> Buildable(PrintFields(ParamFields(params[i])))
  }

  lemma {:induction false} ParamsTaken(acc: Request, params: seq<Param>, next: Request)
    requires ParamsFit(params) && next == acc.(params := acc.params + params)
    ensures Leads(TakeRequest, acc, ParamsFields(params), next)
    decreases |params|
  {
    if params == [] {
      assert acc.params + params == acc.params;
    } else {
      var mid := acc.(params := acc.params + [params[0]]);
      ParamLeads(acc, params[0], mid);
      assert acc.params + [params[0]] + params[1..] == acc.params + params;
      ParamsTaken(mid, params[1..], next);
      LeadsOn(TakeRequest, acc, [ParamField(params[0])], mid, ParamsFields(params[1..]), next);
      assert ParamsFields(params) == [ParamField(params[0])] + ParamsFields(params[1..]);
    }
  }

  lemma OffsetTaken(acc: Request, r: Request)
    requires acc.startOffset == 0
    ensures Leads(TakeRequest, acc, OffsetFields(r), acc.(startOffset := Meaning(r).startOffset))
  {
    UvarintOfPrint(ToUint64(r.startOffset));
    if r.startOffset > 0 {
      LeadsOne(TakeRequest, acc, OffsetFields(r)[0], acc.(startOffset := Meaning(r).startOffset));
    }
  }

  lemma LimitTaken(acc: Request, r: Request)
    requires acc.maxResults == -1
    ensures Leads(TakeRequest, acc, LimitFields(r), acc.(maxResults := Meaning(r).maxResults))
  {
    UvarintOfPrint(ToUint64(r.maxResults));
    SignExtension(r.maxResults);
    if r.maxResults >= 0 {
      LeadsOne(TakeRequest, acc, LimitFields(r)[0], acc.(maxResults := Meaning(r).maxResults));
    }
  }

  lemma FittingParams(r: Request)
    requires RequestFits(r)
    ensures ParamsFit(r.params)
  {
    var fields := RequestFields(r);
    forall i | 0 <= i < |r.params|
      ensures Buildable(PrintFields(ParamFields(r.params[i])))
    {
      assert fields[|fields| - |r.params| + i] == ParamField(r.params[i]);
      assert WellFormed(ParamField(r.params[i]));
    }
  }

  lemma AllTaken(r: Request)
    requires ParamsFit(r.params)
    ensures Leads(TakeRequest, Request([], 0, -1, []), RequestFields(r), Meaning(r))
  {
    var acc0 := Request([], 0, -1, []);
    var acc1 := acc0.(query := r.query);
    var acc2 := acc1.(startOffset := Meaning(r).startOffset);
    var acc3 := acc2.(maxResults := Meaning(r).maxResults);
    var head := Field(1, LENGTH_DELIMITED, r.query);
    LeadsOne(TakeRequest, acc0, head, acc1);
    OffsetTaken(acc1, r);
    LeadsOn(TakeRequest, acc0, [head], acc1, OffsetFields(r), acc2);
    LimitTaken(acc2, r);
    LeadsOn(TakeRequest, acc0, [head] + OffsetFields(r), acc2, LimitFields(r), acc3);
    assert acc3.params + r.params == r.params;
    ParamsTaken(acc3, r.params, Meaning(r));
    LeadsOn(TakeRequest, acc0, [head] + OffsetFields(r) + LimitFields(r), acc3, ParamsFields(r.params), Meaning(r));
  }

  /** A server that reads the request by its definition gets the query, offset, limit and parameters. */
  lemma RequestRoundTrip(r: Request)
    requires RequestFits(r)
    ensures Collect(TakeRequest, Request([], 0, -1, []), PrintFields(RequestFields(r))) == Good(Meaning(r))
  {
    FittingParams(r);
    AllTaken(r);
    CollectFields(TakeRequest, Request([], 0, -1, []), RequestFields(r));
  }

  lemma {:induction false} PrintOneMore(fields: seq<Field>, f: Field)
    ensures PrintFields(fields + [f]) == PrintFields(fields) + PrintField(f)
    decreases |fields|
  {
    if fields == [] {
      assert fields + [f] == [f];
      OneField(f);
    } else {
      assert (fields + [f])[1..] == fields[1..] + [f];
      PrintOneMore(fields[1..], f);
      Wire.Join(PrintField(fields[0]), PrintFields(fields[1..]), PrintField(f));
    }
  }

  method EncodeHead(r: Request) returns (dst: Bytes)
    requires Buildable(r.query)
    ensures dst == PrintFields(HeadFields(r))
  {
    ghost var one := [Field(1, LENGTH_DELIMITED, r.query)];
    OneField(one[0]);
    dst := AppendLenDelimited([], 1, r.query);
    assert dst == PrintFields(one);
    if r.startOffset > 0 {
      dst := AppendVarintField(dst, 3, ToUint64(r.startOffset));
      PrintOneMore(one, OffsetFields(r)[0]);
    } else {
      assert one + OffsetFields(r) == one;
    }
    ghost var two := one + OffsetFields(r);
    assert dst == PrintFields(two);
    if r.maxResults >= 0 {
      dst := AppendVarintField(dst, 4, ToUint64(r.maxResults));
      PrintOneMore(two, LimitFields(r)[0]);
    } else {
      assert two + LimitFields(r) == two;
    }
  }

  method EncodeParam(p: Param) returns (paramMsg: Bytes)
    requires Buildable(p.name) && Buildable(p.value)
    ensures paramMsg == PrintFields(ParamFields(p))
  {
    ghost var fields := ParamFields(p);
    TwoFields(fields[0], fields[1]);
    paramMsg := AppendLenDelimited([], 1, p.name);
    assert paramMsg == PrintField(fields[0]);
    paramMsg := AppendLenDelimited(paramMsg, 2, p.value);
    assert paramMsg == PrintField(fields[0]) + PrintField(fields[1]);
  }

  method AppendParam(dst: Bytes, p: Param, ghost fields: seq<Field>) returns (r: Bytes)
    requires Buildable(p.name) && Buildable(p.value) && Buildable(PrintFields(ParamFields(p)))
    requires dst == PrintFields(fields)
    ensures r == PrintFields(fields + [ParamField(p)])
  {
    var paramMsg := EncodeParam(p);
    PrintOneMore(fields, ParamField(p));
    r := AppendLenDelimited(dst, 5, paramMsg);
  }

  method EncodeQueryRequest(r: Request) returns (dst: Bytes)
    requires Buildable(r.query) && forall i :: 0 <= i < |r.params| ==> Buildable(r.params[i].name)
    requires forall i :: 0 <= i < |r.params| ==> Buildable(r.params[i].value)
    requires ParamsFit(r.params)
    ensures dst == PrintFields(RequestFields(r))
  {
    dst := EncodeHead(r);
    ghost var fields, params := HeadFields(r), ParamsFields(r.params);
    for i := 0 to |r.params|
      invariant fields == HeadFields(r) + params[..i] && dst == PrintFields(fields)
    {
      dst := AppendParam(dst, r.params[i], fields);
      fields := fields + [ParamField(r.params[i])];
    }
    assert fields == RequestFields(r);
  }

  // ---------- the response ----------

  function TakeResponse(acc: Response, f: Field): Option<Response> {
    if f.number == 3 then Some(acc.(results := acc.results + [f.value]))
    else if f.number in {1, 2, 4, 5} then
      match Uvarint(f.value)
      case None => None
      case Some(v) =>
        if f.number == 1 then Some(acc.(numResults := ToInt32(Truncated32(v))))
        else if f.number == 2 then Some(acc.(projectionSize := ToInt32(Truncated32(v))))
        else if f.number == 4 then Some(acc.(hitCount := ToInt32(Truncated32(v))))
        else Some(acc.(hitCountExact := v != 0))
    else Some(acc)
  }

  function DecodeQueryResponse(data: Bytes): Outcome<Response> {
    Collect(TakeResponse, Response(0, 0, [], 0, false), data)
  }

  function ResultsFields(results: seq<Bytes>): (r: seq<Field>)
    ensures |r| == |results|
  {
    seq(|results|, i requires 0 <= i < |results| => Field(3, LENGTH_DELIMITED, results[i]))
  }

  function NumberField(number: nat, v: int32): Field {
    Field(number, VARINT, Print(ToUint64(v)))
  }

  function ExactField(exact: bool): Field {
    Field(5, VARINT, Print(if exact then 1 else 0))
  }

  function ResponseFields(r: Response): seq<Field> {
    [NumberField(1, r.numResults)] + [NumberField(2, r.projectionSize)] + ResultsFields(r.results)
    + [NumberField(4, r.hitCount)] + [ExactField(r.hitCountExact)]
  }

  lemma {:induction false} ResultsTaken(acc: Response, results: seq<Bytes>, next: Response)
    requires next == acc.(results := acc.results + results)
    ensures Leads(TakeResponse, acc, ResultsFields(results), next)
    decreases |results|
  {
    if results == [] {
      assert acc.results + results == acc.results;
    } else {
      var first, mid := Field(3, LENGTH_DELIMITED, results[0]), acc.(results := acc.results + [results[0]]);
      LeadsOne(TakeResponse, acc, first, mid);
      assert acc.results + [results[0]] + results[1..] == acc.results + results;
      ResultsTaken(mid, results[1..], next);
      LeadsOn(TakeResponse, acc, [first], mid, ResultsFields(results[1..]), next);
      assert ResultsFields(results) == [first] + ResultsFields(results[1..]);
    }
  }

  function WithNumber(acc: Response, number: nat, v: int32): Response {
    if number == 1 then acc.(numResults := v) else if number == 2 then acc.(projectionSize := v)
    else acc.(hitCount := v)
  }

  lemma NumberTaken(acc: Response, number: nat, v: int32)
    requires number in {1, 2, 4}
    ensures Leads(TakeResponse, acc, [NumberField(number, v)], WithNumber(acc, number, v))
  {
    UvarintOfPrint(ToUint64(v));
    SignExtension(v);
    LeadsOne(TakeResponse, acc, NumberField(number, v), WithNumber(acc, number, v));
  }

  lemma ExactTaken(acc: Response, exact: bool)
    ensures Leads(TakeResponse, acc, [ExactField(exact)], acc.(hitCountExact := exact))
  {
    UvarintOfPrint(if exact then 1 else 0);
    LeadsOne(TakeResponse, acc, ExactField(exact), acc.(hitCountExact := exact));
  }

  lemma AllRead(r: Response)
    ensures Leads(TakeResponse, Response(0, 0, [], 0, false), ResponseFields(r), r)
  {
    var acc0 := Response(0, 0, [], 0, false);
    var acc1 := acc0.(numResults := r.numResults);
    var acc2 := acc1.(projectionSize := r.projectionSize);
    var acc3 := acc2.(results := acc2.results + r.results);
    var acc4 := acc3.(hitCount := r.hitCount);
    var one, two := [NumberField(1, r.numResults)], [NumberField(2, r.projectionSize)];
    NumberTaken(acc0, 1, r.numResults);
    NumberTaken(acc1, 2, r.projectionSize);
    LeadsOn(TakeResponse, acc0, one, acc1, two, acc2);
    ResultsTaken(acc2, r.results, acc3);
    LeadsOn(TakeResponse, acc0, one + two, acc2, ResultsFields(r.results), acc3);
    NumberTaken(acc3, 4, r.hitCount);
    LeadsOn(TakeResponse, acc0, one + two + ResultsFields(r.results), acc3, [NumberField(4, r.hitCount)], acc4);
    ExactTaken(acc4, r.hitCountExact);
    assert acc2.results + r.results == r.results;
    LeadsOn(TakeResponse, acc0, one + two + ResultsFields(r.results) + [NumberField(4, r.hitCount)], acc4,
            [ExactField(r.hitCountExact)], r);
  }

  /** Results keep their order and number, and every number its value. */
  lemma ResponseRoundTrip(r: Response)
    requires AllWellFormed(ResponseFields(r)) && Buildable(PrintFields(ResponseFields(r)))
    ensures DecodeQueryResponse(PrintFields(ResponseFields(r))) == Good(r)
  {
    AllRead(r);
    CollectFields(TakeResponse, Response(0, 0, [], 0, false), ResponseFields(r));
  }
}

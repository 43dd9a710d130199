/**
 * The Blog routes (routes/blogRoutes.js): five handlers under /api/blogs, each
 * issuing one operation on the Blog collection and mapping its outcome to a
 * status code and a JSON envelope `{ success, count?, data? , error? }`.
 *
 * The collection is a `Store` value: the documents by id and the next id the
 * id supply will hand out. `GET /` and `GET /:id` only read it, so they are
 * functions of a `Store`. `POST /`, `PUT /:id` and `DELETE /:id` change it;
 * `CreateHandler`, `UpdateHandler` and `DeleteHandler` say what they do to
 * the `Store` value, and the `BlogStore` class performs them in place.
 *
 * An exception thrown by the store (a lost connection, a write it refuses)
 * cannot be seen from the handlers' code, so it is an input: `fault` is
 * `Some(message)` when the store operation throws with that message.
 */
module BlogRoutes {
  import opened Wrappers
  import opened BlogModel

  // ---------------------------------------------------------------------------
  // Document ids: a 12-byte ObjectId, read here as a number below 16^24

  type Id = nat

  /** An ObjectId written as text has 24 hexadecimal digits. */
  const IdDigits: nat := 24

  function Pow16(k: nat): (p: nat)
    ensures p > 0
  {
    if k == 0 then 1 else 16 * Pow16(k - 1)
  }

  /** The number of distinct ObjectIds. */
  const IdSpace: nat := Pow16(IdDigits)

  predicate IsHexDigit(c: char) {
    '0' <= c <= '9' || 'a' <= c <= 'f' || 'A' <= c <= 'F'
  }

  predicate AllHex(s: string) {
    forall i :: 0 <= i < |s| ==> IsHexDigit(s[i])
  }

  /** A route parameter that casts to an ObjectId; anything else makes the cast throw. */
  predicate WellFormedId(s: string) {
    |s| == IdDigits && AllHex(s)
  }

  function DigitValue(c: char): (v: nat)
    requires IsHexDigit(c)
    ensures v < 16
  {
    if '0' <= c <= '9' then c as int - '0' as int
    else if 'a' <= c <= 'f' then c as int - 'a' as int + 10
    else c as int - 'A' as int + 10
  }

  function HexChar(d: nat): (c: char)
    requires d < 16
    ensures IsHexDigit(c) && DigitValue(c) == d
  {
    "0123456789abcdef"[d]
  }

  /** The number a string of hexadecimal digits denotes, upper or lower case alike. */
  function HexValue(s: string): (v: nat)
    requires AllHex(s)
    ensures v < Pow16(|s|)
  {
    if s == [] then 0
    else
      var v := HexValue(s[..|s| - 1]);
      assert v * 16 + DigitValue(s[|s| - 1]) < 16 * Pow16(|s| - 1) by {
        assert v + 1 <= Pow16(|s| - 1);
        assert (v + 1) * 16 <= Pow16(|s| - 1) * 16;
      }
      v * 16 + DigitValue(s[|s| - 1])
  }

  /** `n` written with `k` lower-case hexadecimal digits. */
  function Hex(n: nat, k: nat): (s: string)
    ensures |s| == k && AllHex(s)
  {
    if k == 0 then [] else Hex(n / 16, k - 1) + [HexChar(n % 16)]
  }

  lemma {:induction false} HexRoundTrip(n: nat, k: nat)
    requires n < Pow16(k)
    ensures HexValue(Hex(n, k)) == n
  {
    if k > 0 {
      assert n / 16 < Pow16(k - 1);
      HexRoundTrip(n / 16, k - 1);
      var s := Hex(n, k);
      assert s[..|s| - 1] == Hex(n / 16, k - 1);
    }
  }

  /** The text form of an id, as it appears in a route. */
  function IdString(id: Id): (s: string)
    requires id < IdSpace
    ensures WellFormedId(s) && HexValue(s) == id
  {
    HexRoundTrip(id, IdDigits);
    Hex(id, IdDigits)
  }

  /** The message of the exception a malformed id throws when cast to an ObjectId. */
  function CastMessage(raw: string): string {
    "Cast to ObjectId failed for value \"" + raw + "\" (type string) at path \"_id\" for model \"Blog\""
  }

  // ---------------------------------------------------------------------------
  // Validation errors as the thrown exception reports them

  /** The prefix of a validation error raised when a new document is saved. */
  const CreatePrefix := "Blog validation failed"

  /** The prefix of a validation error raised by update validators. */
  const UpdatePrefix := "Validation failed"

  function FieldText(e: FieldError): string {
    e.path + ": " + e.message
  }

  /** How the title's `required` failure reads inside a validation message. */
  lemma TitleRequiredText()
    ensures FieldText(FieldError("title", TitleRequired)) == "title: " + TitleRequired
  {
    assert "title" + ": " == "title: ";
  }

  function Join(errs: seq<FieldError>): string {
    if errs == [] then ""
    else if |errs| == 1 then FieldText(errs[0])
    else FieldText(errs[0]) + ", " + Join(errs[1..])
  }

  /** The message of a validation error: the prefix, then each failed path with its message. */
  function ValidationMessage(prefix: string, errs: seq<FieldError>): string {
    prefix + ": " + Join(errs)
  }

  ghost predicate OccursAt(s: string, t: string, i: nat) {
    i + |t| <= |s| && s[i..i + |t|] == t
  }

  ghost predicate Mentions(s: string, t: string) {
    exists i :: OccursAt(s, t, i)
  }

  /** An occurrence inside the left part of a concatenation stays where it is. */
  lemma OccursBefore(a: string, b: string, t: string, i: nat)
    requires OccursAt(a, t, i)
    ensures OccursAt(a + b, t, i)
  {
    assert (a + b)[i..i + |t|] == a[i..i + |t|];
  }

  /** An occurrence inside the right part of a concatenation moves right by the left part's length. */
  lemma OccursAfter(a: string, b: string, t: string, i: nat)
    requires OccursAt(b, t, i)
    ensures OccursAt(a + b, t, |a| + i)
  {
    assert (a + b)[|a| + i..|a| + i + |t|] == b[i..i + |t|];
  }

  lemma {:induction false} JoinMentions(errs: seq<FieldError>, e: FieldError)
    requires e in errs
    ensures Mentions(Join(errs), FieldText(e))
  {
    var head := FieldText(errs[0]);
    if |errs| == 1 {
      assert OccursAt(Join(errs), head, 0);
    } else if e == errs[0] {
      assert Join(errs) == head + (", " + Join(errs[1..]));
      assert OccursAt(head, head, 0);
      OccursBefore(head, ", " + Join(errs[1..]), head, 0);
    } else {
      var rest := Join(errs[1..]);
      JoinMentions(errs[1..], e);
      var i: nat :| OccursAt(rest, FieldText(e), i);
      assert Join(errs) == (head + ", ") + rest;
      OccursAfter(head + ", ", rest, FieldText(e), i);
    }
  }

  /** The reported message names every failed path together with the schema's message for it. */
  lemma {:induction false} ValidationMessageMentions(prefix: string, errs: seq<FieldError>, e: FieldError)
    requires e in errs
    ensures Mentions(ValidationMessage(prefix, errs), FieldText(e))
  {
    JoinMentions(errs, e);
    var i: nat :| OccursAt(Join(errs), FieldText(e), i);
    OccursAfter(prefix + ": ", Join(errs), FieldText(e), i);
  }

  // ---------------------------------------------------------------------------
  // Responses

  /** A stored document together with its id. */
  datatype Doc = Doc(id: Id, blog: Blog)

  /** The JSON envelope besides `success`. */
  datatype Body =
    | ListBody(count: nat, docs: seq<Doc>)  // { count, data: [...] }
    | DocBody(doc: Doc)                     // { data: document }
    | EmptyBody                             // { data: {} }
    | ErrorBody(error: string)              // { error }

  datatype Response = Response(status: nat, success: bool, body: Body)

  const NotFound := "Blog not found"
  const ServerError := "Server Error"

  function Fail(status: nat, message: string): Response {
    Response(status, false, ErrorBody(message))
  }

  /** `success` is true exactly for 200 and 201, and exactly a failure carries an error string. */
  predicate Enveloped(r: Response) {
    && (r.success <==> r.status == 200 || r.status == 201)
    && (r.success <==> !r.body.ErrorBody?)
  }

  // ---------------------------------------------------------------------------
  // The collection

  datatype Store = Store(records: map<Id, Blog>, nextId: Id)

  /** Every stored id was handed out by the supply, and every stored document passed the schema. */
  ghost predicate Consistent(s: Store) {
    && IdsIssued(s)
    && (forall k :: k in s.records ==> ValidBlog(s.records[k]))
  }

  /** Every stored id was handed out by the supply. */
  ghost predicate IdsIssued(s: Store) {
    forall k :: k in s.records ==> k < s.nextId
  }

  /** A handler's effect: the collection afterwards and the response sent. */
  datatype Outcome = Outcome(store: Store, response: Response)

  /** The stored documents whose ids lie in [lo, hi), in increasing id order. */
  function Docs(m: map<Id, Blog>, lo: nat, hi: nat): (docs: seq<Doc>)
    ensures forall d :: d in docs <==> lo <= d.id < hi && d.id in m && m[d.id] == d.blog
    ensures forall i, j :: 0 <= i < j < |docs| ==> docs[i].id < docs[j].id
    decreases hi - lo
  {
    if lo >= hi then []
    else (if lo in m then [Doc(lo, m[lo])] else []) + Docs(m, lo + 1, hi)
  }

  ghost function KeysBetween(m: map<Id, Blog>, lo: nat, hi: nat): set<Id> {
    set k | k in m && lo <= k < hi
  }

  lemma {:induction false} DocsCount(m: map<Id, Blog>, lo: nat, hi: nat)
    ensures |Docs(m, lo, hi)| == |KeysBetween(m, lo, hi)|
    decreases hi - lo
  {
    if lo >= hi {
      assert KeysBetween(m, lo, hi) == {};
    } else {
      DocsCount(m, lo + 1, hi);
      var here := if lo in m then {lo} else {};
      assert KeysBetween(m, lo, hi) == here + KeysBetween(m, lo + 1, hi);
      assert here !! KeysBetween(m, lo + 1, hi);
    }
  }

  /** GET / (`Blog.find()`): every stored document, or 500 when the store fails. */
  function ListHandler(s: Store, fault: bool): (r: Response)
    requires IdsIssued(s)
    ensures Enveloped(r)
    ensures fault ==> r == Fail(500, ServerError)
    ensures !fault ==> && r.status == 200 && r.body.ListBody?
                       && r.body.count == |r.body.docs| == |s.records|
                       && (forall d :: d in r.body.docs <==> d.id in s.records && s.records[d.id] == d.blog)
  {
    if fault then Fail(500, ServerError)
    else
      var docs := Docs(s.records, 0, s.nextId);
      DocsCount(s.records, 0, s.nextId);
      assert KeysBetween(s.records, 0, s.nextId) == s.records.Keys;
      Response(200, true, ListBody(|docs|, docs))
  }

  /** GET /:id (`Blog.findById`). */
  function GetHandler(s: Store, raw: string, fault: Option<string>): (r: Response)
    ensures Enveloped(r)
    ensures r.status == 200 <==> WellFormedId(raw) && fault.None? && HexValue(raw) in s.records
    ensures r.status == 200 ==> r.body == DocBody(Doc(HexValue(raw), s.records[HexValue(raw)]))
    ensures r.status == 404 <==> WellFormedId(raw) && fault.None? && HexValue(raw) !in s.records
    ensures r.status == 404 ==> r == Fail(404, NotFound)
    ensures !WellFormedId(raw) ==> r == Fail(400, CastMessage(raw))
    ensures WellFormedId(raw) && fault.Some? ==> r == Fail(400, fault.value)
  {
    if !WellFormedId(raw) then Fail(400, CastMessage(raw))
    else if fault.Some? then Fail(400, fault.value)
    else
      var k := HexValue(raw);
      if k !in s.records then Fail(404, NotFound)
      else Response(200, true, DocBody(Doc(k, s.records[k])))
  }

  /** POST / (`Blog.create(body)`): a new document under a fresh id, or 400. */
  function CreateHandler(s: Store, body: Payload, now: Timestamp, fault: Option<string>): (o: Outcome)
    ensures Enveloped(o.response)
    ensures o.response.status == 201 <==> Acceptable(body) && fault.None?
    ensures o.response.status == 201 ==>
      var b := CreateDoc(body, now).value;
      && o.store == Store(s.records[s.nextId := b], s.nextId + 1)
      && o.response.body == DocBody(Doc(s.nextId, b))
    ensures o.response.status != 201 ==> o.response.status == 400 && o.store == s
    ensures !Acceptable(body) ==>
      o.response == Fail(400, ValidationMessage(CreatePrefix, CreateDoc(body, now).error))
  {
    match CreateDoc(body, now)
    case Failure(errs) => Outcome(s, Fail(400, ValidationMessage(CreatePrefix, errs)))
    case Success(b) =>
      if fault.Some? then Outcome(s, Fail(400, fault.value))
      else Outcome(Store(s.records[s.nextId := b], s.nextId + 1), Response(201, true, DocBody(Doc(s.nextId, b))))
  }

  /**
   * PUT /:id (`Blog.findByIdAndUpdate(id, body, { new: true, runValidators: true })`).
   * The id is cast first, then the supplied paths are validated, and only
   * then is the store asked for the document.
   */
  function UpdateHandler(s: Store, raw: string, body: Payload, fault: Option<string>): (o: Outcome)
    ensures Enveloped(o.response)
    ensures o.response.status == 400 <==>
      !WellFormedId(raw) || UpdateErrors(Normalize(body)) != [] || fault.Some?
    ensures o.response.status == 404 <==>
      && WellFormedId(raw) && UpdateErrors(Normalize(body)) == [] && fault.None?
      && HexValue(raw) !in s.records
    ensures o.response.status == 200 <==>
      && WellFormedId(raw) && UpdateErrors(Normalize(body)) == [] && fault.None?
      && HexValue(raw) in s.records
    ensures o.response.status == 200 ==>
      var k := HexValue(raw);
      var n := Normalize(body);
      && !n.title.Null? && !n.content.Null? && !n.author.Null?
      && o.store == Store(s.records[k := Merge(s.records[k], n)], s.nextId)
      && o.response.body == DocBody(Doc(k, Merge(s.records[k], n)))
    ensures o.response.status != 200 ==> o.store == s
    ensures o.response.status == 404 ==> o.response == Fail(404, NotFound)
    ensures !WellFormedId(raw) ==> o.response == Fail(400, CastMessage(raw))
    ensures WellFormedId(raw) && UpdateErrors(Normalize(body)) != [] ==>
      o.response == Fail(400, ValidationMessage(UpdatePrefix, UpdateErrors(Normalize(body))))
    ensures WellFormedId(raw) && UpdateErrors(Normalize(body)) == [] && fault.Some? ==>
      o.response == Fail(400, fault.value)
  {
    if !WellFormedId(raw) then Outcome(s, Fail(400, CastMessage(raw)))
    else
      var n := Normalize(body);
      var errs := UpdateErrors(n);
      if errs != [] then Outcome(s, Fail(400, ValidationMessage(UpdatePrefix, errs)))
      else if fault.Some? then Outcome(s, Fail(400, fault.value))
      else
        var k := HexValue(raw);
        if k !in s.records then Outcome(s, Fail(404, NotFound))
        else
          var b := Merge(s.records[k], n);
          Outcome(Store(s.records[k := b], s.nextId), Response(200, true, DocBody(Doc(k, b))))
  }

  /** DELETE /:id (`Blog.findByIdAndDelete`). */
  function DeleteHandler(s: Store, raw: string, fault: Option<string>): (o: Outcome)
    ensures Enveloped(o.response)
    ensures o.response.status == 200 <==> WellFormedId(raw) && fault.None? && HexValue(raw) in s.records
    ensures o.response.status == 200 ==>
      && o.response.body == EmptyBody
      && o.store == Store(s.records - {HexValue(raw)}, s.nextId)
    ensures o.response.status != 200 ==> o.store == s
    ensures o.response.status == 404 <==> WellFormedId(raw) && fault.None? && HexValue(raw) !in s.records
    ensures o.response.status == 404 ==> o.response == Fail(404, NotFound)
    ensures !WellFormedId(raw) ==> o.response == Fail(400, CastMessage(raw))
    ensures WellFormedId(raw) && fault.Some? ==> o.response == Fail(400, fault.value)
  {
    if !WellFormedId(raw) then Outcome(s, Fail(400, CastMessage(raw)))
    else if fault.Some? then Outcome(s, Fail(400, fault.value))
    else
      var k := HexValue(raw);
      if k !in s.records then Outcome(s, Fail(404, NotFound))
      else Outcome(Store(s.records - {k}, s.nextId), Response(200, true, EmptyBody))
  }

  /** A body the schema rejects is answered with its validation message, and nothing is stored. */
  lemma CreateRejected(s: Store, body: Payload, now: Timestamp, fault: Option<string>)
    requires CreateDoc(body, now).Failure?
    ensures CreateHandler(s, body, now, fault)
            == Outcome(s, Fail(400, ValidationMessage(CreatePrefix, CreateDoc(body, now).error)))
  {
  }

  /** A valid body whose insert fails is answered with the exception's message, and nothing is stored. */
  lemma CreateFaulted(s: Store, body: Payload, now: Timestamp, fault: Option<string>)
    requires CreateDoc(body, now).Success? && fault.Some?
    ensures CreateHandler(s, body, now, fault) == Outcome(s, Fail(400, fault.value))
  {
  }

  /** A valid body is stored under the next id, which the supply then moves past. */
  lemma CreateStored(s: Store, body: Payload, now: Timestamp)
    requires CreateDoc(body, now).Success?
    ensures var b := CreateDoc(body, now).value;
      CreateHandler(s, body, now, None)
      == Outcome(Store(s.records[s.nextId := b], s.nextId + 1), Response(201, true, DocBody(Doc(s.nextId, b))))
  {
  }

  /** Validation gates every write: creating keeps the collection consistent, under a fresh id. */
  lemma CreatePreservesConsistent(s: Store, body: Payload, now: Timestamp, fault: Option<string>)
    requires Consistent(s)
    ensures Consistent(CreateHandler(s, body, now, fault).store)
    ensures CreateHandler(s, body, now, fault).response.success ==> s.nextId !in s.records
  {
    var o := CreateHandler(s, body, now, fault);
    if o.response.success {
      var b := CreateDoc(body, now).value;
      assert o.store == Store(s.records[s.nextId := b], s.nextId + 1);
      forall k | k in o.store.records
        ensures k < o.store.nextId && ValidBlog(o.store.records[k])
      {
        if k != s.nextId {
          assert o.store.records[k] == s.records[k];
        }
      }
    }
  }

  /** Validation gates every write: an update keeps every stored document valid. */
  lemma UpdatePreservesConsistent(s: Store, raw: string, body: Payload, fault: Option<string>)
    requires Consistent(s)
    ensures Consistent(UpdateHandler(s, raw, body, fault).store)
  {
    var o := UpdateHandler(s, raw, body, fault);
    if o.response.status == 200 {
      var k := HexValue(raw);
      MergePreservesValid(s.records[k], body);
      assert o.store.records == s.records[k := Merge(s.records[k], Normalize(body))];
    }
  }

  lemma DeletePreservesConsistent(s: Store, raw: string, fault: Option<string>)
    requires Consistent(s)
    ensures Consistent(DeleteHandler(s, raw, fault).store)
  {
  }

  // ---------------------------------------------------------------------------
  // The collection, updated in place

  /** The Blog collection that the write handlers change in place. */
  class BlogStore {
    var records: map<Id, Blog>
    var nextId: Id

    function State(): Store
      reads this
    {
      Store(records, nextId)
    }

    ghost predicate Valid()
      reads this
    {
      Consistent(State())
    }

    constructor ()
      ensures Valid() && records == map[] && nextId == 0
    {
      records := map[];
      nextId := 0;
    }

    method Create(body: Payload, now: Timestamp, fault: Option<string>) returns (resp: Response)
      requires Valid()
      modifies this
      ensures Valid()
      ensures Outcome(State(), resp) == CreateHandler(old(State()), body, now, fault)
    {
      ghost var s0 := State();
      var doc := CreateDoc(body, now);
      if doc.Failure? {
        CreateRejected(s0, body, now, fault);
        resp := Fail(400, ValidationMessage(CreatePrefix, doc.error));
        return;
      }
      if fault.Some? {
        CreateFaulted(s0, body, now, fault);
        resp := Fail(400, fault.value);
        return;
      }
      CreateStored(s0, body, now);
      var id := nextId;
      records := records[id := doc.value];
      nextId := nextId + 1;
      resp := Response(201, true, DocBody(Doc(id, doc.value)));
      CreatePreservesConsistent(s0, body, now, fault);
    }

    method Update(raw: string, body: Payload, fault: Option<string>) returns (resp: Response)
      requires Valid()
      modifies this
      ensures Valid()
      ensures Outcome(State(), resp) == UpdateHandler(old(State()), raw, body, fault)
    {
      ghost var s0 := State();
      if !WellFormedId(raw) {
        resp := Fail(400, CastMessage(raw));
        return;
      }
      var n := Normalize(body);
      var errs := UpdateErrors(n);
      if errs != [] {
        resp := Fail(400, ValidationMessage(UpdatePrefix, errs));
        return;
      }
      if fault.Some? {
        resp := Fail(400, fault.value);
        return;
      }
      var k := HexValue(raw);
      if k !in records {
        resp := Fail(404, NotFound);
        return;
      }
      var b := Merge(records[k], n);
      records := records[k := b];
      resp := Response(200, true, DocBody(Doc(k, b)));
      UpdatePreservesConsistent(s0, raw, body, fault);
    }

    method Delete(raw: string, fault: Option<string>) returns (resp: Response)
      requires Valid()
      modifies this
      ensures Valid()
      ensures Outcome(State(), resp) == DeleteHandler(old(State()), raw, fault)
    {
      ghost var s0 := State();
      if !WellFormedId(raw) {
        resp := Fail(400, CastMessage(raw));
        return;
      }
      if fault.Some? {
        resp := Fail(400, fault.value);
        return;
      }
      var k := HexValue(raw);
      if k !in records {
        resp := Fail(404, NotFound);
        return;
      }
      records := records - {k};
      resp := Response(200, true, EmptyBody);
      DeletePreservesConsistent(s0, raw, fault);
    }
  }
}

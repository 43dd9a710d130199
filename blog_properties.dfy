/**
 * Properties that relate several requests to the Blog routes: what a later
 * request observes after an earlier one, and how update validation relates to
 * the schema.
 */
module BlogProperties {
  import opened Wrappers
  import opened BlogModel
  import opened BlogRoutes

  /**
   * A valid body is created under a fresh id, and getting that id afterwards
   * returns the trimmed body with the creation time filled in.
   */
  lemma CreateThenGet(s: Store, body: Payload, now: Timestamp)
    requires Consistent(s) && Acceptable(body) && s.nextId < IdSpace
    ensures var o := CreateHandler(s, body, now, None);
      && o.response.status == 201
      && s.nextId !in s.records
      && GetHandler(o.store, IdString(s.nextId), None)
         == Response(200, true, DocBody(Doc(s.nextId, Blog(
              Trim(body.title.value), body.content.value, body.author.value,
              CreatedAt(body.createdAt, now)))))
  {
    var o := CreateHandler(s, body, now, None);
    var id := IdString(s.nextId);
    assert HexValue(id) == s.nextId;
    assert o.store.records[s.nextId] == CreateDoc(body, now).value;
  }

  /** A rejected body changes nothing a later listing can see. */
  lemma RejectedCreateKeepsListing(s: Store, body: Payload, now: Timestamp, fault: Option<string>)
    requires Consistent(s) && !Acceptable(body)
    ensures var o := CreateHandler(s, body, now, fault);
      && o.response.status == 400
      && ListHandler(o.store, false) == ListHandler(s, false)
  {
  }

  /** The error a body without a title gets names the title path and the schema's message. */
  lemma MissingTitleMessage(s: Store, body: Payload, now: Timestamp, fault: Option<string>)
    requires body.title.Absent? || body.title.Null?
    ensures var r := CreateHandler(s, body, now, fault).response;
      && r.status == 400 && r.body.ErrorBody?
      && Mentions(r.body.error, "title: " + TitleRequired)
  {
    var errs := CreateDoc(body, now).error;
    TitleMissingRejected(body, now);
    CreateRejected(s, body, now, fault);
    ValidationMessageMentions(CreatePrefix, errs, errs[0]);
    TitleRequiredText();
  }

  /**
   * Updating a title to the empty string, or to whitespace only, is rejected
   * with the title's `required` message and leaves the collection unchanged.
   */
  lemma {:induction false} BlankTitleUpdateRejected(s: Store, raw: string, body: Payload, fault: Option<string>)
    requires WellFormedId(raw)
    requires body.title.Given? && forall i :: 0 <= i < |body.title.value| ==> IsWhitespace(body.title.value[i])
    ensures var o := UpdateHandler(s, raw, body, fault);
      && o.response.status == 400
      && o.store == s
      && Mentions(o.response.body.error, "title: " + TitleRequired)
  {
    BlankTitleFailsUpdate(body);
    var errs := UpdateErrors(Normalize(body));
    var o := UpdateHandler(s, raw, body, fault);
    assert o.response == Fail(400, ValidationMessage(UpdatePrefix, errs));
    ValidationMessageMentions(UpdatePrefix, errs, errs[0]);
    TitleRequiredText();
  }

  /**
   * On a stored document, an update is rejected by validation exactly when the
   * document it would produce breaks the schema: checking only the supplied
   * paths is as strict as re-validating the merged document.
   */
  lemma {:induction false} UpdateRejectsExactlyInvalidMerges(s: Store, raw: string, body: Payload)
    requires Consistent(s) && WellFormedId(raw) && HexValue(raw) in s.records
    ensures var o := UpdateHandler(s, raw, body, None);
      o.response.status == 400 <==> SchemaErrors(Normalize(Overlay(s.records[HexValue(raw)], body))) != []
  {
    UpdateErrorsCheckMergedDocument(s.records[HexValue(raw)], body);
  }

  /**
   * Create, then update the content, then get: the content is the new one,
   * and the id, title, author and creation time are those of the create.
   */
  lemma CreateUpdateGet(s: Store, body: Payload, now: Timestamp, content: string)
    requires Consistent(s) && Acceptable(body) && s.nextId < IdSpace && content != ""
    ensures var created := CreateHandler(s, body, now, None);
      var id := IdString(s.nextId);
      var updated := UpdateHandler(created.store, id, Payload(Absent, Given(content), Absent, Absent), None);
      var got := GetHandler(updated.store, id, None);
      && updated.response.status == 200
      && got.status == 200
      && got.body.doc.id == s.nextId
      && got.body.doc.blog == CreateDoc(body, now).value.(content := content)
  {
    var created := CreateHandler(s, body, now, None);
    var id := IdString(s.nextId);
    assert HexValue(id) == s.nextId;
    var p := Payload(Absent, Given(content), Absent, Absent);
    assert Normalize(p) == p;
    assert created.store.records[s.nextId] == CreateDoc(body, now).value;
  }

  /** Delete removes only the given document, and a following get of its id finds nothing. */
  lemma DeleteThenGet(s: Store, raw: string)
    requires WellFormedId(raw) && HexValue(raw) in s.records
    ensures var o := DeleteHandler(s, raw, None);
      && o.response == Response(200, true, EmptyBody)
      && o.store.records == s.records - {HexValue(raw)}
      && GetHandler(o.store, raw, None) == Fail(404, NotFound)
  {
  }

  /** The worked example: create one blog, list it, delete it, list nothing. */
  method ExampleSession() returns (created: Response, listed: Response, deleted: Response, relisted: Response)
    ensures created.status == 201 && created.body.DocBody?
    ensures listed.status == 200 && listed.body.ListBody?
    ensures listed.body.count == 1 && listed.body.docs == [created.body.doc]
    ensures deleted == Response(200, true, EmptyBody)
    ensures relisted.status == 200 && relisted.body.ListBody? && relisted.body.count == 0
  {
    var store := new BlogStore();
    var body := Payload(Given("Hello"), Given("World"), Given("Ann"), Absent);
    TrimFixesTrimmed("Hello");
    created := store.Create(body, 0, None);
    listed := ListHandler(store.State(), false);
    var d := listed.body.docs[0];
    assert d in listed.body.docs;
    deleted := store.Delete(IdString(0), None);
    relisted := ListHandler(store.State(), false);
  }
}

/**
 * The Blog schema (models/Blog.js): the shape of a Blog document and the
 * declarative field rules the document store enforces on every write.
 *
 * The schema's `trim` setter becomes `Normalize`; its `required` and
 * `maxlength` validators become `SchemaErrors` (for a whole document, as on
 * create) and `UpdateErrors` (for the paths an update supplies, as with
 * `runValidators`); its `default` becomes `CreatedAt`.
 */
module BlogModel {
  import opened Wrappers

  /** A point in time as a JavaScript Date holds it: milliseconds since the epoch. */
  type Timestamp = int

  /** One key of a JSON request body: left out, sent as null, or given a value. */
  datatype Field<T> = Absent | Null | Given(value: T)

  /** The schema's keys as a request body carries them. */
  datatype Payload = Payload(
    title: Field<string>,
    content: Field<string>,
    author: Field<string>,
    createdAt: Field<Timestamp>)

  /**
   * A stored Blog document. `createdAt` is None when a client explicitly
   * stored null there: the schema does not require it.
   */
  datatype Blog = Blog(title: string, content: string, author: string, createdAt: Option<Timestamp>)

  /** One failed validator: the path it guards and the schema's message. */
  datatype FieldError = FieldError(path: string, message: string)

  const MaxTitleLength: nat := 100

  const TitleRequired := "Please add a title"
  const TitleTooLong := "Title cannot be more than 100 characters"
  const ContentRequired := "Please add content"
  const AuthorRequired := "Please add an author"

  /** Every message the schema can report. */
  predicate IsSchemaError(e: FieldError) {
    || e == FieldError("title", TitleRequired)
    || e == FieldError("title", TitleTooLong)
    || e == FieldError("content", ContentRequired)
    || e == FieldError("author", AuthorRequired)
  }

  // ---------------------------------------------------------------------------
  // The `trim` setter: JavaScript's String.prototype.trim

  /** The characters String.prototype.trim removes: WhiteSpace and LineTerminator. */
  predicate IsWhitespace(c: char) {
    || c == '\t' || c == '\n' || c == '\U{000B}' || c == '\U{000C}' || c == '\r' || c == ' '
    || c == '\U{00A0}' || c == '\U{1680}' || ('\U{2000}' <= c <= '\U{200A}')
    || c == '\U{2028}' || c == '\U{2029}' || c == '\U{202F}' || c == '\U{205F}'
    || c == '\U{3000}' || c == '\U{FEFF}'
  }

  /** `s` without its leading whitespace: a suffix of `s` preceded only by whitespace. */
  function TrimStart(s: string): (r: string)
    ensures |r| <= |s|
    ensures r == [] || !IsWhitespace(r[0])
  {
    if s != [] && IsWhitespace(s[0]) then TrimStart(s[1..]) else s
  }

  /** `TrimStart` keeps a suffix of its input and drops only whitespace. */
  lemma {:induction false} TrimStartDropsWhitespace(s: string)
    ensures TrimStart(s) == s[|s| - |TrimStart(s)|..]
    ensures forall i :: 0 <= i < |s| - |TrimStart(s)| ==> IsWhitespace(s[i])
  {
    if s != [] && IsWhitespace(s[0]) {
      TrimStartDropsWhitespace(s[1..]);
      assert s[1..][|s| - 1 - |TrimStart(s)|..] == s[|s| - |TrimStart(s)|..];
      assert forall i :: 1 <= i < |s| ==> s[i] == s[1..][i - 1];
    }
  }

  /** `s` without its trailing whitespace: a prefix of `s` followed only by whitespace. */
  function TrimEnd(s: string): (r: string)
    ensures |r| <= |s|
    ensures r == [] || !IsWhitespace(r[|r| - 1])
  {
    if s != [] && IsWhitespace(s[|s| - 1]) then TrimEnd(s[..|s| - 1]) else s
  }

  /** `TrimEnd` keeps a prefix of its input and drops only whitespace. */
  lemma {:induction false} TrimEndDropsWhitespace(s: string)
    ensures TrimEnd(s) == s[..|TrimEnd(s)|]
    ensures forall i :: |TrimEnd(s)| <= i < |s| ==> IsWhitespace(s[i])
  {
    if s != [] && IsWhitespace(s[|s| - 1]) {
      TrimEndDropsWhitespace(s[..|s| - 1]);
      assert s[..|s| - 1][..|TrimEnd(s)|] == s[..|TrimEnd(s)|];
      assert forall i :: 0 <= i < |s| - 1 ==> s[i] == s[..|s| - 1][i];
    }
  }

  /** `r` is the slice of `s` starting at `i`, with only whitespace before and after it in `s`. */
  ghost predicate SurroundedBy(s: string, i: nat, r: string) {
    && i + |r| <= |s| && r == s[i..i + |r|]
    && (forall j :: 0 <= j < i ==> IsWhitespace(s[j]))
    && (forall j :: i + |r| <= j < |s| ==> IsWhitespace(s[j]))
  }

  /** Neither starts nor ends with whitespace. */
  predicate Trimmed(t: string) {
    t == [] || (!IsWhitespace(t[0]) && !IsWhitespace(t[|t| - 1]))
  }

  /** `s` without surrounding whitespace: what remains neither starts nor ends with whitespace. */
  function Trim(s: string): (r: string)
    ensures |r| <= |s|
    ensures Trimmed(r)
  {
    var t := TrimStart(s);
    var r := TrimEnd(t);
    TrimEndDropsWhitespace(t);
    assert r != [] ==> r[0] == t[0];
    r
  }

  /** `Trim(s)` is a slice of `s` that has only whitespace around it. */
  lemma TrimSlice(s: string)
    ensures exists i :: SurroundedBy(s, i, Trim(s))
  {
    var t := TrimStart(s);
    var r := TrimEnd(t);
    var i := |s| - |t|;
    assert Trim(s) == r;
    assert t == s[i..] && forall j :: 0 <= j < i ==> IsWhitespace(s[j]) by {
      TrimStartDropsWhitespace(s);
    }
    assert r == t[..|r|] && forall j :: |r| <= j < |t| ==> IsWhitespace(t[j]) by {
      TrimEndDropsWhitespace(t);
    }
    assert r == s[i..i + |r|];
    forall j | i + |r| <= j < |s|
      ensures IsWhitespace(s[j])
    {
      assert s[j] == t[j - i];
    }
    assert SurroundedBy(s, i, r);
  }

  /** Trimming leaves nothing exactly when the input is all whitespace. */
  lemma TrimBlank(s: string)
    ensures Trim(s) == [] <==> forall i :: 0 <= i < |s| ==> IsWhitespace(s[i])
  {
    var t := TrimStart(s);
    TrimStartDropsWhitespace(s);
    TrimEndDropsWhitespace(t);
    assert Trim(s) == TrimEnd(t);
    if t != [] {
      assert t[0] == s[|s| - |t|];
      assert TrimEnd(t) != [];
    }
  }

  /** A string without surrounding whitespace is left as it is. */
  lemma TrimFixesTrimmed(t: string)
    requires Trimmed(t)
    ensures Trim(t) == t
  {
    assert TrimStart(t) == t;
    assert TrimEnd(t) == t;
  }

  lemma TrimIdempotent(s: string)
    ensures Trim(Trim(s)) == Trim(s)
  {
    TrimFixesTrimmed(Trim(s));
  }

  // ---------------------------------------------------------------------------
  // String length as JavaScript counts it

  /** The `.length` of `s` in JavaScript: UTF-16 code units, two for a character outside the BMP. */
  function Utf16Length(s: string): (n: nat)
    ensures |s| <= n <= 2 * |s|
  {
    if s == [] then 0 else (if s[0] as int > 0xFFFF then 2 else 1) + Utf16Length(s[1..])
  }

  /** One character is one code unit, or two (a surrogate pair) when it lies above U+FFFF. */
  lemma Utf16LengthChar(c: char)
    ensures Utf16Length([c]) == if c as int > 0xFFFF then 2 else 1
  {
    assert [c][1..] == [];
  }

  /** The length of a concatenation is the sum of the lengths, so the count is per character. */
  lemma {:induction false} Utf16LengthConcat(a: string, b: string)
    ensures Utf16Length(a + b) == Utf16Length(a) + Utf16Length(b)
  {
    if a != [] {
      assert (a + b)[1..] == a[1..] + b;
      Utf16LengthConcat(a[1..], b);
    } else {
      assert a + b == b;
    }
  }

  /** Inside the Basic Multilingual Plane every character is one code unit. */
  lemma {:induction false} Utf16LengthBmp(s: string)
    requires forall i :: 0 <= i < |s| ==> s[i] as int <= 0xFFFF
    ensures Utf16Length(s) == |s|
  {
    if s != [] {
      assert forall i :: 0 <= i < |s| - 1 ==> s[1..][i] == s[i + 1];
      Utf16LengthBmp(s[1..]);
    }
  }

  // ---------------------------------------------------------------------------
  // Normalisation: the setters run before validation

  /** Applies the `trim` setter to a supplied title; every other key is kept as it came. */
  function Normalize(p: Payload): (n: Payload)
    ensures n.content == p.content && n.author == p.author && n.createdAt == p.createdAt
    ensures n.title.Absent? == p.title.Absent? && n.title.Null? == p.title.Null?
    ensures p.title.Given? ==> n.title.value == Trim(p.title.value)
  {
    match p.title
    case Given(t) => p.(title := Given(Trim(t)))
    case _ => p
  }

  /** Normalising twice is normalising once. */
  lemma NormalizeIdempotent(p: Payload)
    ensures Normalize(Normalize(p)) == Normalize(p)
  {
    if p.title.Given? {
      TrimIdempotent(p.title.value);
    }
  }

  // ---------------------------------------------------------------------------
  // Validators

  /** A `required` rule fails: the key is missing or null, or the value is the empty string. */
  predicate Missing(f: Field<string>) {
    !f.Given? || f.value == ""
  }

  /** The title's `maxlength` rule fails: a non-empty value longer than 100 UTF-16 units. */
  predicate TitleOverLong(f: Field<string>) {
    f.Given? && f.value != "" && Utf16Length(f.value) > MaxTitleLength
  }

  /** `required` and `maxlength` on the (already trimmed) title: at most one title message. */
  function TitleErrors(f: Field<string>): (errs: seq<FieldError>)
    ensures |errs| <= 1 && forall e :: e in errs ==> e.path == "title"
    ensures FieldError("title", TitleRequired) in errs <==> Missing(f)
    ensures FieldError("title", TitleTooLong) in errs <==> TitleOverLong(f)
  {
    match f
    case Given(t) =>
      if t == "" then [FieldError("title", TitleRequired)]
      else if Utf16Length(t) > MaxTitleLength then [FieldError("title", TitleTooLong)]
      else []
    case _ => [FieldError("title", TitleRequired)]
  }

  /** `required` on a string path: null, missing and the empty string all fail. */
  function RequiredErrors(path: string, message: string, f: Field<string>): (errs: seq<FieldError>)
    ensures errs == (if Missing(f) then [FieldError(path, message)] else [])
  {
    if f.Given? && f.value != "" then [] else [FieldError(path, message)]
  }

  /** The title's `required` and `maxlength` rules, on an already trimmed value. */
  predicate TitleAllowed(t: string) {
    t != "" && Utf16Length(t) <= MaxTitleLength
  }

  /**
   * Every validator of the schema, run over a whole normalised document, in
   * schema order: each message is reported exactly when its rule fails, so
   * none is reported exactly when each field meets its rule.
   */
  function SchemaErrors(n: Payload): (errs: seq<FieldError>)
    ensures forall e :: e in errs ==> IsSchemaError(e)
    ensures FieldError("title", TitleRequired) in errs <==> Missing(n.title)
    ensures FieldError("title", TitleTooLong) in errs <==> TitleOverLong(n.title)
    ensures FieldError("content", ContentRequired) in errs <==> Missing(n.content)
    ensures FieldError("author", AuthorRequired) in errs <==> Missing(n.author)
    ensures errs == [] <==>
      && n.title.Given? && TitleAllowed(n.title.value)
      && n.content.Given? && n.content.value != ""
      && n.author.Given? && n.author.value != ""
  {
    var a := TitleErrors(n.title);
    var b := RequiredErrors("content", ContentRequired, n.content);
    var c := RequiredErrors("author", AuthorRequired, n.author);
    assert |a + b + c| == |a| + |b| + |c|;
    assert forall e :: e in a + b + c <==> e in a || e in b || e in c;
    a + b + c
  }

  /**
   * The validators of only the paths an update supplies (Mongoose's update
   * validators): each message is reported exactly when its path is supplied
   * and its rule fails, so none is reported exactly when each supplied field
   * meets its rule.
   */
  function UpdateErrors(n: Payload): (errs: seq<FieldError>)
    ensures forall e :: e in errs ==> IsSchemaError(e)
    ensures FieldError("title", TitleRequired) in errs <==> !n.title.Absent? && Missing(n.title)
    ensures FieldError("title", TitleTooLong) in errs <==> !n.title.Absent? && TitleOverLong(n.title)
    ensures FieldError("content", ContentRequired) in errs <==> !n.content.Absent? && Missing(n.content)
    ensures FieldError("author", AuthorRequired) in errs <==> !n.author.Absent? && Missing(n.author)
    ensures errs == [] <==>
      && (!n.title.Absent? ==> n.title.Given? && TitleAllowed(n.title.value))
      && (!n.content.Absent? ==> n.content.Given? && n.content.value != "")
      && (!n.author.Absent? ==> n.author.Given? && n.author.value != "")
  {
    var a := if n.title.Absent? then [] else TitleErrors(n.title);
    var b := if n.content.Absent? then [] else RequiredErrors("content", ContentRequired, n.content);
    var c := if n.author.Absent? then [] else RequiredErrors("author", AuthorRequired, n.author);
    assert |a + b + c| == |a| + |b| + |c|;
    assert forall e :: e in a + b + c <==> e in a || e in b || e in c;
    a + b + c
  }

  /** A title the schema stores: non-empty, at most 100 UTF-16 units, already trimmed. */
  predicate ValidTitle(t: string) {
    TitleAllowed(t) && Trimmed(t)
  }

  /** A document that satisfies every rule of the schema. */
  predicate ValidBlog(b: Blog) {
    ValidTitle(b.title) && b.content != "" && b.author != ""
  }

  /** What the schema accepts on create, stated on the raw body. */
  predicate Acceptable(p: Payload) {
    && p.title.Given? && Trim(p.title.value) != "" && Utf16Length(Trim(p.title.value)) <= MaxTitleLength
    && p.content.Given? && p.content.value != ""
    && p.author.Given? && p.author.value != ""
  }

  /** The `default: Date.now` rule: it applies only when the key is missing, not when it is null. */
  function CreatedAt(f: Field<Timestamp>, now: Timestamp): (t: Option<Timestamp>)
    ensures f.Absent? ==> t == Some(now)
    ensures f.Null? ==> t == None
    ensures f.Given? ==> t == Some(f.value)
  {
    match f
    case Absent => Some(now)
    case Null => None
    case Given(v) => Some(v)
  }

  /**
   * Building a new document from a request body (`new Blog(body)` then
   * `validate`): either a valid document made of the trimmed body and the
   * creation time, or the schema's error messages.
   */
  function CreateDoc(p: Payload, now: Timestamp): (r: Result<Blog, seq<FieldError>>)
    ensures r.Success? <==> Acceptable(p)
    ensures r.Success? ==> && ValidBlog(r.value)
                           && r.value.title == Trim(p.title.value)
                           && r.value.content == p.content.value
                           && r.value.author == p.author.value
                           && r.value.createdAt == CreatedAt(p.createdAt, now)
    ensures r.Failure? ==> r.error != [] && r.error == SchemaErrors(Normalize(p))
  {
    var n := Normalize(p);
    var errs := SchemaErrors(n);
    if errs == [] then
      TrimIdempotent(p.title.value);
      Success(Blog(n.title.value, n.content.value, n.author.value, CreatedAt(n.createdAt, now)))
    else
      Failure(errs)
  }

  /** A body without a usable title is rejected, first of all with 'Please add a title'. */
  lemma TitleMissingRejected(p: Payload, now: Timestamp)
    requires !p.title.Given? || forall i :: 0 <= i < |p.title.value| ==> IsWhitespace(p.title.value[i])
    ensures CreateDoc(p, now).Failure?
    ensures CreateDoc(p, now).error[0] == FieldError("title", TitleRequired)
  {
    if p.title.Given? {
      TrimBlank(p.title.value);
    }
  }

  /** A title longer than 100 units once trimmed is rejected with the maxlength message. */
  lemma TitleTooLongRejected(p: Payload, now: Timestamp)
    requires p.title.Given? && Utf16Length(Trim(p.title.value)) > MaxTitleLength
    ensures CreateDoc(p, now).Failure?
    ensures CreateDoc(p, now).error[0] == FieldError("title", TitleTooLong)
  {
  }

  /** The limit is inclusive: a trimmed title of exactly 100 units is stored. */
  lemma TitleAtLimitAccepted(p: Payload, now: Timestamp)
    requires p.title.Given? && Utf16Length(Trim(p.title.value)) == MaxTitleLength
    requires p.content.Given? && p.content.value != "" && p.author.Given? && p.author.value != ""
    ensures CreateDoc(p, now).Success?
    ensures Utf16Length(CreateDoc(p, now).value.title) == MaxTitleLength
  {
  }

  /** A body without content is rejected with 'Please add content'. */
  lemma ContentMissingRejected(p: Payload, now: Timestamp)
    requires !p.content.Given? || p.content.value == ""
    ensures CreateDoc(p, now).Failure?
    ensures FieldError("content", ContentRequired) in CreateDoc(p, now).error
  {
  }

  /** A body without an author is rejected with 'Please add an author'. */
  lemma AuthorMissingRejected(p: Payload, now: Timestamp)
    requires !p.author.Given? || p.author.value == ""
    ensures CreateDoc(p, now).Failure?
    ensures FieldError("author", AuthorRequired) in CreateDoc(p, now).error
  {
  }

  // ---------------------------------------------------------------------------
  // Updates (`findByIdAndUpdate` with `runValidators: true`)

  /** A stored `createdAt` as a body would carry it: null when none is stored. */
  function AsField(t: Option<Timestamp>): Field<Timestamp> {
    match t
    case Some(v) => Given(v)
    case None => Null
  }

  /**
   * The whole document an update describes, as a body: supplied keys replace,
   * missing keys keep the stored value.
   */
  function Overlay(b: Blog, p: Payload): Payload {
    Payload(
      if p.title.Absent? then Given(b.title) else p.title,
      if p.content.Absent? then Given(b.content) else p.content,
      if p.author.Absent? then Given(b.author) else p.author,
      if p.createdAt.Absent? then AsField(b.createdAt) else p.createdAt)
  }

  /**
   * Checking only the supplied paths reports exactly what checking the whole
   * merged document would, when the stored document was valid.
   */
  lemma {:induction false} UpdateErrorsCheckMergedDocument(b: Blog, p: Payload)
    requires ValidBlog(b)
    ensures UpdateErrors(Normalize(p)) == SchemaErrors(Normalize(Overlay(b, p)))
  {
    var o := Overlay(b, p);
    if p.title.Absent? {
      assert Normalize(o).title == Given(b.title);
    }
  }

  /** An update that blanks the title fails its `required` validator first. */
  lemma BlankTitleFailsUpdate(p: Payload)
    requires p.title.Given? && forall i :: 0 <= i < |p.title.value| ==> IsWhitespace(p.title.value[i])
    ensures UpdateErrors(Normalize(p)) != []
    ensures UpdateErrors(Normalize(p))[0] == FieldError("title", TitleRequired)
  {
    TrimBlank(p.title.value);
    var n := Normalize(p);
    assert n.title == Given("");
  }

  /** The `$set` an update performs, once its validators passed: supplied keys replace stored ones. */
  function Merge(b: Blog, n: Payload): (m: Blog)
    requires !n.title.Null? && !n.content.Null? && !n.author.Null?
    ensures n.title.Absent? ==> m.title == b.title
    ensures n.title.Given? ==> m.title == n.title.value
    ensures n.content.Absent? ==> m.content == b.content
    ensures n.content.Given? ==> m.content == n.content.value
    ensures n.author.Absent? ==> m.author == b.author
    ensures n.author.Given? ==> m.author == n.author.value
    ensures m.createdAt == (match n.createdAt
                            case Absent => b.createdAt
                            case Null => None
                            case Given(t) => Some(t))
  {
    Blog(
      if n.title.Given? then n.title.value else b.title,
      if n.content.Given? then n.content.value else b.content,
      if n.author.Given? then n.author.value else b.author,
      match n.createdAt
      case Absent => b.createdAt
      case Null => None
      case Given(t) => Some(t))
  }

  /**
   * The merged document that validation checks is the document the update
   * stores: once the supplied paths pass, normalising the overlaid body gives
   * exactly the fields of `Merge`.
   */
  lemma {:induction false} OverlayIsMerge(b: Blog, p: Payload)
    requires ValidBlog(b)
    requires UpdateErrors(Normalize(p)) == []
    ensures !Normalize(p).title.Null? && !Normalize(p).content.Null? && !Normalize(p).author.Null?
    ensures var m := Merge(b, Normalize(p));
      Normalize(Overlay(b, p)) == Payload(Given(m.title), Given(m.content), Given(m.author), AsField(m.createdAt))
  {
    TrimFixesTrimmed(b.title);
  }

  /** Validators passing on the supplied paths keep a valid document valid. */
  lemma {:induction false} MergePreservesValid(b: Blog, p: Payload)
    requires ValidBlog(b)
    requires UpdateErrors(Normalize(p)) == []
    ensures !Normalize(p).title.Null? && !Normalize(p).content.Null? && !Normalize(p).author.Null?
    ensures ValidBlog(Merge(b, Normalize(p)))
  {
    var n := Normalize(p);
    if p.title.Given? {
      TrimIdempotent(p.title.value);
    }
  }

  /** An update that supplies no key leaves the document as it was. */
  lemma MergeEmptyIsIdentity(b: Blog)
    ensures Merge(b, Payload(Absent, Absent, Absent, Absent)) == b
  {
  }
}

# Blog REST resource: a Dafny model

This project models the core of a small Express and Mongoose backend. The backend serves one resource, Blog, under `/api/blogs`. It has two parts:

- **The Blog schema** (`models/Blog.js`) is a declarative validator. `title`, `content` and `author` are required. `title` is trimmed and may be at most 100 characters. `createdAt` defaults to the creation time.
- **The five route handlers** (`routes/blogRoutes.js`) are `GET /`, `GET /:id`, `POST /`, `PUT /:id` and `DELETE /:id`. Each one issues a single operation on the Blog collection. It maps the outcome to a status and a JSON envelope `{ success, count?, data?, error? }`.

Modules:

- `Wrappers` (`wrappers.dfy`) holds `Option` and `Result`.
- `BlogModel` (`blog_model.dfy`) is the schema, written as pure functions:
  - `Normalize` is the `trim` setter. It uses `Trim`, which is JavaScript's `String.prototype.trim`.
  - `SchemaErrors` runs every validator over a whole document, as on create.
  - `UpdateErrors` runs only the validators of the paths an update supplies, as `runValidators` does.
  - `CreatedAt` is the `default` rule.
  - `CreateDoc` builds a new document or returns the schema's field errors.
  - `Merge` is the `$set` an update performs.
- `BlogRoutes` (`blog_routes.dfy`) holds the handlers:
  - The collection is a `Store` value: documents by id, plus the next id of a fresh-id supply.
  - The two reads, `ListHandler` and `GetHandler`, are functions of a `Store`.
  - `CreateHandler`, `UpdateHandler` and `DeleteHandler` give each write's new `Store` and its `Response`.
  - The class `BlogStore` holds the collection as fields, a `map` and a counter. Its methods `Create`, `Update` and `Delete` change those fields in place. Each method is proved to match its handler function.
- `BlogProperties` (`blog_properties.dfy`) holds properties across several requests. Examples: create then get, delete then get, and create then update then get. It also holds the worked example session.

Inputs the code cannot see become parameters:

- The clock (`Date.now`) is `now`.
- An exception thrown by the database during a find or write is `fault`. For the list handler it is a `bool`; for the others it is `Option<string>`, the exception's message.
- ObjectId generation is the counter `nextId`.
- Whether a route id casts to an ObjectId is `WellFormedId`: exactly 24 hexadecimal digits, in either case.

## Model

| member | source | states |
|---|---|---|
| `BlogModel.Trim` | models/Blog.js:42 | the trimmed title neither starts nor ends with whitespace (JavaScript's WhiteSpace and LineTerminator characters) and is no longer than the input |
| `BlogModel.TrimStartDropsWhitespace` | models/Blog.js:42 | stripping leading whitespace keeps a suffix of the input and drops only whitespace |
| `BlogModel.TrimEndDropsWhitespace` | models/Blog.js:42 | stripping trailing whitespace keeps a prefix of the input and drops only whitespace |
| `BlogModel.TrimSlice` | models/Blog.js:42 | trimming keeps a slice of the input that has only whitespace before and after it |
| `BlogModel.TrimBlank` | models/Blog.js:41-42 | trimming leaves nothing exactly when the input is all whitespace, so such a title counts as missing |
| `BlogModel.TrimFixesTrimmed` | models/Blog.js:42 | a string with no surrounding whitespace is stored unchanged by the trim setter |
| `BlogModel.TrimIdempotent` | models/Blog.js:42 | trimming twice is trimming once |
| `BlogModel.Utf16Length` | models/Blog.js:43 | the length that `maxlength` compares counts UTF-16 code units: at least one and at most two per character |
| `BlogModel.Utf16LengthChar` | models/Blog.js:43 | a single character counts one code unit, or two when it lies above U+FFFF |
| `BlogModel.Utf16LengthConcat` | models/Blog.js:43 | the length of a concatenation is the sum of the lengths, so with `Utf16LengthChar` the count is fixed character by character |
| `BlogModel.Utf16LengthBmp` | models/Blog.js:43 | when every character is in the Basic Multilingual Plane, that length is the number of characters |
| `BlogModel.Normalize` | models/Blog.js:42 | the setter trims a supplied title and leaves every other key, and whether each key is present, absent or null, untouched |
| `BlogModel.NormalizeIdempotent` | models/Blog.js:42 | normalising an already normalised body changes nothing |
| `BlogModel.SchemaErrors` | models/Blog.js:38-52 | whole-document validation reports only the schema's own messages, and each exactly when its rule fails: 'Please add a title' for a missing, null or empty title, the maxlength message for a non-empty title over 100 units, 'Please add content' and 'Please add an author' for a missing, null or empty value; so it reports none exactly when every field meets its rule |
| `BlogModel.UpdateErrors` | routes/blogRoutes.js:163-166 | update validators report only the schema's messages, each exactly when its path is supplied (null counts as supplied) and its rule fails; absent paths are never reported, so none is reported exactly when every supplied path meets its rule |
| `BlogModel.CreatedAt` | models/Blog.js:53-56 | a missing `createdAt` takes the creation time; null stays null; a supplied value is kept |
| `BlogModel.CreateDoc` | models/Blog.js:38-57 | a body is accepted exactly when it meets every rule once trimmed; an accepted body yields a valid document made of the trimmed title, the content, the author and the defaulted `createdAt`; a rejected one yields the non-empty list of whole-document errors of the trimmed body |
| `BlogModel.TitleMissingRejected` | models/Blog.js:41 | a missing, null, empty or whitespace-only title is rejected, first with 'Please add a title' |
| `BlogModel.TitleTooLongRejected` | models/Blog.js:43 | a title longer than 100 units after trimming is rejected with 'Title cannot be more than 100 characters' |
| `BlogModel.TitleAtLimitAccepted` | models/Blog.js:43 | a trimmed title of exactly 100 units is accepted when content and author are present |
| `BlogModel.ContentMissingRejected` | models/Blog.js:47 | a missing, null or empty content is rejected with 'Please add content' |
| `BlogModel.AuthorMissingRejected` | models/Blog.js:51 | a missing, null or empty author is rejected with 'Please add an author' |
| `BlogModel.UpdateErrorsCheckMergedDocument` | routes/blogRoutes.js:163-166 | on a valid stored document, checking only the supplied paths reports exactly the errors that validating the whole merged document would |
| `BlogModel.BlankTitleFailsUpdate` | models/Blog.js:41-42 | an update that sets the title to an empty or whitespace-only string fails, first with 'Please add a title' |
| `BlogModel.Merge` | routes/blogRoutes.js:163-166 | an update replaces exactly the supplied keys and keeps every absent key's stored value |
| `BlogModel.OverlayIsMerge` | routes/blogRoutes.js:163-166 | once the supplied paths pass, the merged document that whole-document validation would check has exactly the fields the update stores |
| `BlogModel.MergePreservesValid` | routes/blogRoutes.js:163-166 | if the stored document is valid and the supplied paths pass their validators, the updated document is valid |
| `BlogModel.MergeEmptyIsIdentity` | routes/blogRoutes.js:163-166 | an update that supplies no key leaves the document as it was |
| `BlogRoutes.HexRoundTrip` | routes/blogRoutes.js:75 | reading back an id written as hexadecimal digits gives the same id |
| `BlogRoutes.IdString` | routes/blogRoutes.js:75 | the text form of every id casts back to that same id |
| `BlogRoutes.ValidationMessageMentions` | routes/blogRoutes.js:119 | the error string a validation failure sends names every failed path with the schema's message for it |
| `BlogRoutes.Docs` | routes/blogRoutes.js:34 | the listing holds exactly the stored documents in the id range, each once, in increasing id order |
| `BlogRoutes.DocsCount` | routes/blogRoutes.js:34-35 | the listing is as long as the number of stored ids in the range |
| `BlogRoutes.ListHandler` | routes/blogRoutes.js:32-39 | for any stored documents, valid or not: without a fault: 200, `count` equal to the length of `data` and to the number of stored documents, `data` exactly the stored documents; with a fault: 500 'Server Error' |
| `BlogRoutes.GetHandler` | routes/blogRoutes.js:73-83 | 200 with the stored document exactly when the id casts, the store does not fail and the id is stored; 404 'Blog not found' for a well-formed absent id; 400 with the cast error for a malformed id and with the thrown message for a store fault |
| `BlogRoutes.CreateHandler` | routes/blogRoutes.js:114-121 | 201 exactly when the body is acceptable and the insert does not fail; the new document is the normalised body under the next id, and the supply moves on; otherwise 400, the validation message for an invalid body, and the store is unchanged |
| `BlogRoutes.UpdateHandler` | routes/blogRoutes.js:161-174 | 400 exactly for a malformed id (with the cast error), a failing supplied path (with the validation message) or a store fault (with the exception's message); 404 exactly for a valid request on an absent id; otherwise 200 with the document after the update, where only that document changes and only in its supplied keys; every failure leaves the store unchanged |
| `BlogRoutes.DeleteHandler` | routes/blogRoutes.js:206-216 | 200 with `data {}` exactly when the id casts, the store does not fail and the id is stored, and then only that id is removed; 404 for a well-formed absent id; 400 for a malformed id or a fault; failures leave the store unchanged |
| `BlogRoutes.CreateRejected` | routes/blogRoutes.js:116-119 | a body the schema rejects is answered 400 with the validation message, and nothing is stored |
| `BlogRoutes.CreateFaulted` | routes/blogRoutes.js:116-119 | a valid body whose insert throws is answered 400 with the exception's message, and nothing is stored |
| `BlogRoutes.CreateStored` | routes/blogRoutes.js:116-117 | a valid body is stored under the next id and answered 201 with the new document, and the id supply moves on |
| `BlogRoutes.CreatePreservesConsistent` | routes/blogRoutes.js:114-117 | validation gates creation: every stored document still meets the schema, and the new id was not in use |
| `BlogRoutes.UpdatePreservesConsistent` | routes/blogRoutes.js:161-170 | validation gates updates: every stored document still meets the schema |
| `BlogRoutes.DeletePreservesConsistent` | routes/blogRoutes.js:206-212 | deleting keeps every remaining document valid and every id issued |
| `BlogRoutes.BlogStore.constructor` | models/Blog.js:59 | the Blog collection starts empty, with a valid state and the id supply at its start |
| `BlogRoutes.BlogStore.Create` | routes/blogRoutes.js:114-121 | the in-place create leaves the collection and sends the response that `CreateHandler` gives, and keeps the collection valid |
| `BlogRoutes.BlogStore.Update` | routes/blogRoutes.js:161-174 | the in-place update leaves the collection and sends the response that `UpdateHandler` gives, and keeps the collection valid |
| `BlogRoutes.BlogStore.Delete` | routes/blogRoutes.js:206-216 | the in-place delete leaves the collection and sends the response that `DeleteHandler` gives, and keeps the collection valid |
| `BlogProperties.CreateThenGet` | routes/blogRoutes.js:114-121 | after creating a valid body, getting its id returns 200 with the trimmed body, the new id and the defaulted creation time |
| `BlogProperties.RejectedCreateKeepsListing` | routes/blogRoutes.js:118-119 | a body missing a required field gets 400, and the listing afterwards is the same as before |
| `BlogProperties.MissingTitleMessage` | routes/blogRoutes.js:118-119 | creating without a title answers 400 with an error that mentions 'title: Please add a title' |
| `BlogProperties.BlankTitleUpdateRejected` | routes/blogRoutes.js:171-172 | updating the title to an empty or whitespace-only string answers 400, mentions 'title: Please add a title', and leaves the store unchanged |
| `BlogProperties.UpdateRejectsExactlyInvalidMerges` | routes/blogRoutes.js:163-166 | on a stored document, an update gets 400 exactly when the merged document would break the schema |
| `BlogProperties.CreateUpdateGet` | routes/blogRoutes.js:161-174 | create, then update the content, then get: the new content comes back under the same id, with the created title, author and creation time |
| `BlogProperties.DeleteThenGet` | routes/blogRoutes.js:206-212 | deleting a stored id answers 200 `{}`, removes only that id, and a following get answers 404 'Blog not found' |
| `BlogProperties.ExampleSession` | routes/blogRoutes.js:32-39 | creating Hello/World/Ann answers 201; a listing then has count 1 and holds that document; deleting it answers 200 `{}`; a second listing has count 0 |

## Behaviour that may be unexpected

The model follows the code in each case below.

- `createdAt` is not protected from updates. The update handler passes the whole body to `findByIdAndUpdate`, so a body that carries `createdAt` changes it. `Merge` models that.
- An update is not validated as a whole document. Only the supplied paths are checked. `UpdateRejectsExactlyInvalidMerges` and `OverlayIsMerge` prove that, for a body made of plain field keys, this rejects exactly the updates whose stored result would break the schema, whenever the stored document is valid. Every reachable store guarantees that. Bodies with update-operator keys are outside this claim; see `UpdateHandler` under "## Left out".
- An update is validated before the document is looked up. The id is cast first, then the supplied paths are validated, then the document is looked up. An invalid body sent to a well-formed but absent id therefore gets 400, not 404.
- A store exception is not a server error, except in the list handler. In get, create, update or delete it falls into the handler's `catch` and is answered with 400 and the exception's message. Only the list handler answers 500.

## Left out

- `server.js` is left out. It covers Express wiring, CORS, JSON body parsing, static files, the port and the database connection, all process plumbing.
- `config/swagger.js` and the `@openapi` comment blocks are left out. They are documentation generation, not behaviour.
- Async/await and concurrent requests are left out. Each handler is one sequential step on the collection.
- JSON serialisation of documents is left out. Examples: the `_id` rendered as hexadecimal text, and Mongoose's `__v` version key.
- ObjectId generation is replaced by an unbounded counter. The 12-byte bound is not modelled. The create-then-get lemmas ask that the counter be below 16^24.
- The 12-character string form that Mongoose also casts to an ObjectId is left out. Only the 24-hex-digit form is `WellFormedId`.
- Array bodies are left out. The JSON body parser accepts an array, and `Blog.create` given an array inserts one document per element and answers 201 with an array. `Payload` describes a single object body only.
- Unpaired surrogates are left out. A JSON string may carry one (`"\ud800"`), JavaScript stores it and `.length` counts it as one unit, but a Dafny `char` is a Unicode scalar value and cannot hold it. Titles containing one are not modelled.
- Body values that are not strings (or, for `createdAt`, not timestamps) are left out. This includes Mongoose's casting of them and the cast errors they raise. Plain keys outside the schema are dropped, as strict mode does. Keys that start with `$` are not plain keys on an update; see the `UpdateHandler` line below. A client-supplied `_id` is not modelled.
- UpdateHandler: PUT bodies whose top-level keys are update operators (`$rename`, `$max`, `$inc` and so on) are not modelled. `findByIdAndUpdate` applies such keys as operators rather than as fields and wraps only the remaining keys in `$set`. Its update validators run only for `$set`, `$unset`, `$push`, `$addToSet`, `$pull` and `$pullAll`. A body such as `{"$rename": {"title": "t"}}` or `{"$max": {"title": <a 200-unit string>}}` can therefore store a document that breaks the schema with a 200 answer. `Payload` describes plain-key bodies only, and `UpdateHandler`, `UpdatePreservesConsistent` and `UpdateRejectsExactlyInvalidMerges` hold for those bodies only.
- The exact wording of Mongoose's exception messages is its own. `CastMessage` and the validation prefixes are approximations, and so is the order of several field errors: the model uses schema order, while Mongoose uses the order in which validators finish.
- The database's natural order for `find()` is unspecified. `ListHandler` lists in increasing id order, which is creation order. It proves only that the listing holds each stored document exactly once.

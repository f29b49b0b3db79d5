/**
 * The User record of `models/userModel.js`: the fields and validators the
 * schema declares, the `favoriteGenre` default, and the `toJSON` transform
 * that rewrites a document's field map before it is sent to a client.
 */
module UserModel {
  import opened Wrappers

  /** A document identifier; it carries the text `toString()` gives for it. */
  datatype ObjectId = ObjectId(hex: string)

  /** The values a User document's fields hold. `Null` is JavaScript's `null`. */
  datatype Value = Str(s: string) | Num(n: int) | Null | Oid(oid: ObjectId)

  const MinUsernameLength: nat := 6

  // ---------------------------------------------------------------------
  // String conversion
  // ---------------------------------------------------------------------

  /** The decimal digits of `n`, most significant first. */
  function NatToDecimal(n: nat): string
    decreases n
  {
    var d := ['0' + (n % 10) as char];
    if n < 10 then d else NatToDecimal(n / 10) + d
  }

  /** `v.toString()`: `None` where JavaScript throws a TypeError (on `null`). */
  function ToJsString(v: Value): Option<string> {
    match v
    case Str(s) => Some(s)
    case Num(n) => Some(if n < 0 then "-" + NatToDecimal(-n) else NatToDecimal(n))
    case Null => None
    case Oid(o) => Some(o.hex)
  }

  // ---------------------------------------------------------------------
  // The toJSON transform
  // ---------------------------------------------------------------------

  /** `returnedObject._id.toString()` succeeds: `_id` is present and not null. */
  predicate HasId(fields: map<string, Value>) {
    "_id" in fields && ToJsString(fields["_id"]).Some?
  }

  /** The keys the transform removes. */
  const HiddenKeys: set<string> := {"_id", "__v", "passwordHash"}

  /**
   * The field map after a successful transform: `id` holds the text of the
   * old `_id`; `_id`, `__v` and `passwordHash` are gone; every other key
   * keeps its value.
   */
  function Serialize(fields: map<string, Value>): (out: map<string, Value>)
    requires HasId(fields)
    ensures "passwordHash" !in out && "_id" !in out && "__v" !in out
    ensures "id" in out && out["id"] == Str(ToJsString(fields["_id"]).value)
    ensures out.Keys == fields.Keys - HiddenKeys + {"id"}
    ensures forall k :: k in out && k != "id" ==> k in fields && out[k] == fields[k]
    ensures forall k :: k in fields && k !in HiddenKeys && k != "id" ==> k in out && out[k] == fields[k]
  {
    fields["id" := Str(ToJsString(fields["_id"]).value)] - HiddenKeys
  }

  /** The object handed to the `toJSON` transform, which rewrites it in place. */
  class ReturnedObject {
    var fields: map<string, Value>

    constructor (fields: map<string, Value>)
      ensures this.fields == fields
    {
      this.fields := fields;
    }

    /**
     * The `transform` of the schema's `toJSON` option. When `_id` is missing
     * or null the first statement throws before anything is written, so
     * the object is left as it was and `ok` is false.
     */
    method Transform() returns (ok: bool)
      modifies this
      ensures ok <==> HasId(old(fields))
      ensures ok ==> fields == Serialize(old(fields))
      ensures !ok ==> fields == old(fields)
    {
      if "_id" !in fields {
        return false;
      }
      var text := ToJsString(fields["_id"]);
      if text.None? {
        return false;
      }
      fields := fields["id" := Str(text.value)];
      fields := fields - {"_id"};
      fields := fields - {"__v"};
      fields := fields - {"passwordHash"};
      ok := true;
    }
  }

  /** An already transformed object has no `_id`, so a second transform would throw. */
  lemma SerializeNotReapplicable(fields: map<string, Value>)
    requires HasId(fields)
    ensures !HasId(Serialize(fields))
  {
  }

  /**
   * Distinct document ids give distinct `id` strings. This holds by
   * construction: an `ObjectId` is modelled by its own text.
   */
  lemma SerializeKeepsIdsDistinct(f1: map<string, Value>, f2: map<string, Value>)
    requires "_id" in f1 && f1["_id"].Oid? && "_id" in f2 && f2["_id"].Oid?
    requires f1["_id"] != f2["_id"]
    ensures Serialize(f1)["id"] != Serialize(f2)["id"]
  {
  }

  // ---------------------------------------------------------------------
  // The schema
  // ---------------------------------------------------------------------

  /**
   * A stored User: `None` is an unset field. `ToDocument` treats an unset
   * field as undefined, so its key is absent rather than holding `null`.
   */
  datatype User = User(
    id: ObjectId,
    version: nat,
    username: Option<string>,
    passwordHash: Option<string>,
    favoriteGenre: Option<string>)

  /**
   * The arguments of `new User({...})`. For `favoriteGenre` the outer
   * `None` means the field was not supplied at all.
   */
  datatype UserInput = UserInput(
    username: Option<string>,
    passwordHash: Option<string>,
    favoriteGenre: Option<Option<string>>)

  /** A new User document: a fresh id, version 0, and `favoriteGenre` defaulted to null. */
  function NewUser(id: ObjectId, input: UserInput): (u: User)
    ensures u.id == id && u.version == 0
    ensures u.username == input.username && u.passwordHash == input.passwordHash
    ensures input.favoriteGenre.None? ==> u.favoriteGenre == None
    ensures input.favoriteGenre.Some? ==> u.favoriteGenre == input.favoriteGenre.value
  {
    var genre := match input.favoriteGenre
      case None => None
      case Some(g) => g;
    User(id, 0, input.username, input.passwordHash, genre)
  }

  datatype ValidatorKind = Required | MinLength
  datatype ValidationError = ValidationError(path: string, kind: ValidatorKind)

  /** The `required` validator of a String path: null, undefined and "" all fail. */
  predicate Present(v: Option<string>) {
    v.Some? && v.value != ""
  }

  /**
   * JavaScript's `.length` of a string: the number of UTF-16 code units,
   * where a character above U+FFFF takes a surrogate pair.
   */
  function Utf16Length(s: string): (n: nat)
    ensures |s| <= n <= 2 * |s|
    ensures n == |s| <==> forall i :: 0 <= i < |s| ==> s[i] as int <= 0xFFFF
  {
    if s == [] then 0
    else (if s[0] as int > 0xFFFF then 2 else 1) + Utf16Length(s[1..])
  }

  /** The validators of one String path; the `required` failure is the one reported. */
  function CheckPath(path: string, v: Option<string>, required: bool, minLength: nat): seq<ValidationError> {
    if required && !Present(v) then [ValidationError(path, Required)]
    else if v.Some? && Utf16Length(v.value) < minLength then [ValidationError(path, MinLength)]
    else []
  }

  /**
   * The schema's validation of a User: no error exactly when `username`
   * is present with at least six UTF-16 code units and `passwordHash` is
   * present; each error names the failing path and validator, and no path
   * is reported twice.
   */
  function Validate(u: User): (errs: seq<ValidationError>)
    ensures errs == [] <==>
      Present(u.username) && Utf16Length(u.username.value) >= MinUsernameLength && Present(u.passwordHash)
    ensures forall e :: e in errs ==>
      e in {ValidationError("username", Required), ValidationError("username", MinLength),
            ValidationError("passwordHash", Required)}
    ensures forall i, j :: 0 <= i < j < |errs| ==> errs[i].path != errs[j].path
    ensures ValidationError("username", Required) in errs <==> !Present(u.username)
    ensures ValidationError("username", MinLength) in errs <==>
      Present(u.username) && Utf16Length(u.username.value) < MinUsernameLength
    ensures ValidationError("passwordHash", Required) in errs <==> !Present(u.passwordHash)
    ensures |errs| <= 2
  {
    CheckPath("username", u.username, true, MinUsernameLength)
      + CheckPath("passwordHash", u.passwordHash, true, 0)
  }

  /**
   * `minlength` counts UTF-16 code units, not characters: three characters
   * outside the Basic Multilingual Plane make a username of length 6.
   */
  lemma MinLengthCountsCodeUnits()
    ensures Validate(User(ObjectId("0"), 0, Some("\U{1F600}\U{1F600}\U{1F600}"), Some("h"), None)) == []
    ensures Validate(User(ObjectId("0"), 0, Some("abcde"), Some("h"), None))
            == [ValidationError("username", MinLength)]
  {
  }

  /**
   * The favoriteGenre default never affects validity. This holds by
   * construction: no validator reads `favoriteGenre`.
   */
  lemma ValidityIgnoresGenre(id: ObjectId, input: UserInput, genre: Option<Option<string>>)
    ensures Validate(NewUser(id, input)) == Validate(NewUser(id, input.(favoriteGenre := genre)))
  {
  }

  // ---------------------------------------------------------------------
  // A User document and its serialised form
  // ---------------------------------------------------------------------

  /** A string field as a document holds it: unset is `null`. */
  function StrOrNull(v: Option<string>): Value {
    if v.Some? then Str(v.value) else Null
  }

  /** `fields` with `key` set to `v`, or without `key` when `v` is unset. */
  function SetIfPresent(fields: map<string, Value>, key: string, v: Option<string>): map<string, Value> {
    if v.Some? then fields[key := Str(v.value)] else fields - {key}
  }

  /**
   * The document of a stored User, as the transform receives it. An unset
   * `username` or `passwordHash` is treated as undefined, so its key is
   * absent; an explicit `null` is not modelled. `favoriteGenre` always has
   * a value, `null` by default.
   */
  function ToDocument(u: User): map<string, Value> {
    var base := map["_id" := Oid(u.id), "__v" := Num(u.version), "favoriteGenre" := StrOrNull(u.favoriteGenre)];
    SetIfPresent(SetIfPresent(base, "username", u.username), "passwordHash", u.passwordHash)
  }

  /** What a client may learn about a User. */
  datatype PublicUser = PublicUser(id: string, username: Option<string>, favoriteGenre: Option<string>)

  function PublicView(u: User): PublicUser {
    PublicUser(u.id.hex, u.username, u.favoriteGenre)
  }

  /** A string-or-null field of a serialised object; an absent key reads as unset. */
  function ReadOptional(json: map<string, Value>, key: string): Option<Option<string>> {
    if key !in json then Some(None)
    else match json[key]
      case Str(s) => Some(Some(s))
      case Null => Some(None)
      case _ => None
  }

  /** Reads a serialised User back, as a client would. */
  function ParsePublic(json: map<string, Value>): Option<PublicUser> {
    if "id" in json && json["id"].Str? then
      match (ReadOptional(json, "username"), ReadOptional(json, "favoriteGenre"))
      case (Some(name), Some(genre)) => Some(PublicUser(json["id"].s, name, genre))
      case _ => None
    else None
  }

  /**
   * The serialised form of a User that passed validation holds exactly
   * `id`, `username` and `favoriteGenre`; it reads back as the User's
   * public view.
   */
  lemma SerializedUserIsPublicView(u: User)
    requires Validate(u) == []
    ensures Serialize(ToDocument(u)).Keys == {"id", "username", "favoriteGenre"}
    ensures ParsePublic(Serialize(ToDocument(u))) == Some(PublicView(u))
  {
  }

  /**
   * The password hash never reaches the serialised form: two Users that
   * differ only in their hash serialise identically.
   */
  lemma SerializeIgnoresPasswordHash(u: User, hash: Option<string>)
    ensures Serialize(ToDocument(u)) == Serialize(ToDocument(u.(passwordHash := hash)))
  {
  }
}

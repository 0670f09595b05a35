/**
 * The record normaliser (src/main.py): two independent passes over a fetched batch,
 * one producing users and one producing addresses.
 */
module Normalize {
  import opened Common
  import opened Json

  /** A user as built for one raw record. */
  datatype User = User(
    uid: Value,
    password: Value,
    firstName: Value,
    lastName: Value,
    username: Value,
    email: Value,
    phoneNumber: Value,
    socialInsuranceNumber: Value,
    dateOfBirth: Value)
  {
    /** The dict handed on to the stores, under the source's field names. */
    function AsRecord(): (d: Record)
      ensures d.Keys == UserKeys && d["uid"] == uid
      ensures d["password"] == password && d["first_name"] == firstName && d["last_name"] == lastName
      ensures d["username"] == username && d["email"] == email && d["phone_number"] == phoneNumber
      ensures d["social_insurance_number"] == socialInsuranceNumber && d["date_of_birth"] == dateOfBirth
    {
      map[
        "uid" := uid, "password" := password, "first_name" := firstName,
        "last_name" := lastName, "username" := username, "email" := email,
        "phone_number" := phoneNumber, "social_insurance_number" := socialInsuranceNumber,
        "date_of_birth" := dateOfBirth]
    }
  }

  /** An address as built for one raw record. */
  datatype Address = Address(
    uid: Value,
    city: Value,
    streetName: Value,
    streetAddress: Value,
    zipCode: Value,
    state: Value,
    country: Value)
  {
    function AsRecord(): (d: Record)
      ensures d.Keys == AddressKeys && d["uid"] == uid
      ensures d["city"] == city && d["street_name"] == streetName && d["street_address"] == streetAddress
      ensures d["zip_code"] == zipCode && d["state"] == state && d["country"] == country
    {
      map[
        "uid" := uid, "city" := city, "street_name" := streetName,
        "street_address" := streetAddress, "zip_code" := zipCode,
        "state" := state, "country" := country]
    }
  }

  const UserKeys: set<string> :=
    {"uid", "password", "first_name", "last_name", "username", "email",
     "phone_number", "social_insurance_number", "date_of_birth"}

  const AddressKeys: set<string> :=
    {"uid", "city", "street_name", "street_address", "zip_code", "state", "country"}

  /** The literal hashed when the raw record carries no usable identifier. */
  const SinPlaceholder: Value := Str("N/A")

  // ---------------------------------------------------------------------------
  // Declarative reading of a raw record, independent of evaluation order
  // ---------------------------------------------------------------------------

  /** `r["login"]["uuid"]` evaluates without KeyError or TypeError. */
  predicate HasUid(r: Value)
  {
    r.Obj? && "login" in r.fields && r.fields["login"].Obj? && "uuid" in r.fields["login"].fields
  }

  function RawUid(r: Value): Value
    requires HasUid(r)
  {
    r.fields["login"].fields["uuid"]
  }

  /** The dict `r` holds something other than a dict under `k`, so a `.get` chained on it raises. */
  predicate NotDictAt(r: Value, k: string)
    requires r.Obj?
  {
    k in r.fields && !r.fields[k].Obj?
  }

  /** The nested dict under `k`, or `{}` when `k` is absent. */
  function Nested(r: Value, k: string): map<string, Value>
    requires r.Obj? && !NotDictAt(r, k)
  {
    if k in r.fields then r.fields[k].fields else map[]
  }

  /** The raw date of birth `dob.date`, `"n/a"` when either level is absent. */
  function RawDate(r: Value): Value
    requires r.Obj? && !NotDictAt(r, "dob")
  {
    Lookup(Nested(r, "dob"), "date", NA)
  }

  /** What gets anonymised: `id.value` when it is truthy, the placeholder otherwise. */
  function SinSource(r: Value): Value
    requires r.Obj? && !NotDictAt(r, "id")
  {
    var id := Nested(r, "id");
    if "value" in id && Truthy(id["value"]) then id["value"] else SinPlaceholder
  }

  /** `location.street` is present and not a dict, with `location` itself a dict or absent. */
  predicate StreetNotDict(r: Value)
    requires r.Obj? && !NotDictAt(r, "location")
  {
    var loc := Nested(r, "location");
    "street" in loc && !loc["street"].Obj?
  }

  // ---------------------------------------------------------------------------
  // One record
  // ---------------------------------------------------------------------------

  /**
   * The dict literal built for one raw record. The steps that can fail are taken in
   * the order Python evaluates them, so the first failure decides between skipping
   * the record (KeyError, TypeError) and aborting the cycle (AttributeError); the
   * lookups on `login` and on the record itself cannot fail once `uuid` was found.
   */
  function UserOf(u: Value, hashPii: Value -> string): (r: Outcome<User>)
    ensures r.Keep? <==>
      && HasUid(u) && "name" in u.fields
      && !NotDictAt(u, "name") && !NotDictAt(u, "id") && !NotDictAt(u, "dob")
      && (RawDate(u).Str? || RawDate(u).Arr?)
    ensures r.Abort? <==>
      && HasUid(u) && "name" in u.fields
      && (NotDictAt(u, "name") || NotDictAt(u, "id") || NotDictAt(u, "dob"))
    ensures r.Keep? ==> r.value.uid == RawUid(u)
  {
    var login :- Subscript(u, "login");
    var uid :- Subscript(login, "uuid");
    var name :- Subscript(u, "name");
    var nameFields :- Fields(name);
    var id :- Fields(Lookup(u.fields, "id", EmptyObj));
    var dob :- Fields(Lookup(u.fields, "dob", EmptyObj));
    var dateOfBirth :- Prefix(Lookup(dob, "date", NA), 10);
    var idValue := Lookup(id, "value", Null);
    var sin := Str(hashPii(if Truthy(idValue) then idValue else SinPlaceholder));
    Keep(User(
      uid,
      Lookup(login.fields, "password", NA),
      Lookup(nameFields, "first", NA),
      Lookup(nameFields, "last", NA),
      Lookup(login.fields, "username", NA),
      Lookup(u.fields, "email", NA),
      Lookup(u.fields, "phone", NA),
      sin,
      dateOfBirth))
  }

  /** The address dict literal for one raw record, in evaluation order. */
  function AddressOf(a: Value, show: Value -> string): (r: Outcome<Address>)
    ensures r.Skip? <==> !HasUid(a)
    ensures r.Abort? <==> HasUid(a) && (NotDictAt(a, "location") || StreetNotDict(a))
    ensures r.Keep? ==> r.value.uid == RawUid(a) && r.value.streetAddress.Str? && r.value.zipCode.Str?
  {
    var login :- Subscript(a, "login");
    var uid :- Subscript(login, "uuid");
    var location :- Fields(Lookup(a.fields, "location", EmptyObj));
    var street :- Fields(Lookup(location, "street", EmptyObj));
    Keep(Address(
      uid,
      Lookup(location, "city", NA),
      Lookup(street, "name", NA),
      Str(PyStr(Lookup(street, "number", NA), show)),
      Str(PyStr(Lookup(location, "postcode", NA), show)),
      Lookup(location, "state", NA),
      Lookup(location, "country", NA)))
  }

  // ---------------------------------------------------------------------------
  // Field-level guarantees
  // ---------------------------------------------------------------------------

  /** Defaults replace absent keys only; a present value, `null` included, is carried through. */
  lemma UserFieldsDefaultOnlyWhenAbsent(u: Value, hashPii: Value -> string)
    requires UserOf(u, hashPii).Keep?
    ensures var x := UserOf(u, hashPii).value;
      var login := u.fields["login"].fields;
      var name := u.fields["name"].fields;
      && Defaulted(login, "password", x.password)
      && Defaulted(login, "username", x.username)
      && Defaulted(name, "first", x.firstName)
      && Defaulted(name, "last", x.lastName)
      && Defaulted(u.fields, "email", x.email)
      && Defaulted(u.fields, "phone", x.phoneNumber)
  {
  }

  /** The stored identifier is the anonymised token of `id.value`, or of `"N/A"` when that is missing or falsy. */
  lemma SinIsTokenOfIdValue(u: Value, hashPii: Value -> string)
    requires UserOf(u, hashPii).Keep?
    ensures UserOf(u, hashPii).value.socialInsuranceNumber == Str(hashPii(SinSource(u)))
    ensures !("id" in u.fields && "value" in u.fields["id"].fields && Truthy(u.fields["id"].fields["value"]))
            ==> UserOf(u, hashPii).value.socialInsuranceNumber == Str(hashPii(SinPlaceholder))
  {
  }

  /**
   * The raw identifier reaches the user only through its token: two records that differ
   * only in `id` and whose identifiers hash alike produce the same outcome.
   */
  lemma RawIdOnlyThroughToken(u1: Value, u2: Value, hashPii: Value -> string)
    requires u1.Obj? && u2.Obj?
    requires forall k :: k != "id" ==> (k in u1.fields <==> k in u2.fields)
    requires forall k :: k != "id" && k in u1.fields ==> u1.fields[k] == u2.fields[k]
    requires !NotDictAt(u1, "id") && !NotDictAt(u2, "id")
    requires hashPii(SinSource(u1)) == hashPii(SinSource(u2))
    ensures UserOf(u1, hashPii) == UserOf(u2, hashPii)
  {
  }

  /**
   * The date of birth is the first `min(10, len)` characters of a string date, the first
   * `min(10, len)` items of a list date, and `"n/a"` when `dob.date` is absent.
   */
  lemma DateOfBirthTruncated(u: Value, hashPii: Value -> string)
    requires UserOf(u, hashPii).Keep?
    ensures var dob := UserOf(u, hashPii).value.dateOfBirth;
      var raw := RawDate(u);
      && (raw.Str? ==> dob.Str? && |dob.s| == Min(10, |raw.s|) && dob.s <= raw.s)
      && (raw.Arr? ==> dob.Arr? && |dob.items| == Min(10, |raw.items|) && dob.items <= raw.items)
      && ("date" !in Nested(u, "dob") ==> dob == NA)
  {
  }

  /** Address fields default only when absent; street number and postcode go through `str`. */
  lemma AddressFieldsDefaultOnlyWhenAbsent(a: Value, show: Value -> string)
    requires AddressOf(a, show).Keep?
    ensures var x := AddressOf(a, show).value;
      var loc := Nested(a, "location");
      var street := Nested(a.(fields := loc), "street");
      && Defaulted(loc, "city", x.city)
      && Defaulted(loc, "state", x.state)
      && Defaulted(loc, "country", x.country)
      && Defaulted(street, "name", x.streetName)
      && x.streetAddress == Str(PyStr(Lookup(street, "number", NA), show))
      && x.zipCode == Str(PyStr(Lookup(loc, "postcode", NA), show))
      && ("postcode" !in loc ==> x.zipCode == NA)
      && ("number" !in street ==> x.streetAddress == NA)
  {
  }

  // ---------------------------------------------------------------------------
  // A whole batch
  // ---------------------------------------------------------------------------

  /** The list a pass builds, or the uncaught error that ended it. */
  datatype Batch<+T> = Extracted(items: seq<T>) | Aborted

  /**
   * One pass over the batch: kept records are appended in order, skipped ones are
   * dropped, and an uncaught error anywhere discards the pass.
   */
  function ExtractAll<T(==)>(data: seq<Value>, f: Value -> Outcome<T>): (r: Batch<T>)
    ensures r.Aborted? <==> exists i :: 0 <= i < |data| && f(data[i]).Abort?
    ensures r.Extracted? ==> |r.items| <= |data|
    ensures r.Extracted? ==> forall x :: x in r.items ==> exists i :: 0 <= i < |data| && f(data[i]) == Keep(x)
    ensures r.Extracted? ==> forall i :: 0 <= i < |data| && f(data[i]).Keep? ==> f(data[i]).value in r.items
    decreases |data|
  {
    if |data| == 0 then Extracted([])
    else
      var rest := ExtractAll(data[1..], f);
      assert forall i :: 1 <= i < |data| ==> data[i] == data[1..][i - 1];
      match f(data[0])
      case Abort => Aborted
      case Skip => rest
      case Keep(x) => if rest.Aborted? then Aborted else Extracted([x] + rest.items)
  }

  /** Concatenation of two passes: both lists, or the abort of either. */
  function Concat<T>(a: Batch<T>, b: Batch<T>): Batch<T>
  {
    if a.Extracted? && b.Extracted? then Extracted(a.items + b.items) else Aborted
  }

  /** A pass over `a + b` is the pass over `a` followed by the pass over `b`: output order is input order. */
  lemma {:induction false} ExtractAllAppend<T>(a: seq<Value>, b: seq<Value>, f: Value -> Outcome<T>)
    ensures ExtractAll(a + b, f) == Concat(ExtractAll(a, f), ExtractAll(b, f))
    decreases |a|
  {
    if |a| == 0 {
      assert a + b == b;
    } else {
      assert (a + b)[1..] == a[1..] + b;
      ExtractAllAppend(a[1..], b, f);
      match f(a[0])
      case Abort =>
      case Skip =>
      case Keep(x) =>
        var ra, rb := ExtractAll(a[1..], f), ExtractAll(b, f);
        if ra.Extracted? && rb.Extracted? {
          assert [x] + (ra.items + rb.items) == ([x] + ra.items) + rb.items;
        }
    }
  }

  /** A malformed record that is skipped leaves the rest of the batch's result exactly as without it. */
  lemma SkippedRecordIsInvisible<T>(data: seq<Value>, i: nat, f: Value -> Outcome<T>)
    requires i < |data| && f(data[i]).Skip?
    ensures ExtractAll(data, f) == ExtractAll(data[..i] + data[i + 1..], f)
  {
    assert data == data[..i] + ([data[i]] + data[i + 1..]);
    ExtractAllAppend(data[..i], [data[i]] + data[i + 1..], f);
    ExtractAllAppend([data[i]], data[i + 1..], f);
    ExtractAllAppend(data[..i], data[i + 1..], f);
    assert ExtractAll([data[i]], f) == Extracted([]);
  }

  /** `extract_user_data_for_storage`: the users of the batch in order, or the abort of the cycle. */
  function ExtractUsers(data: seq<Value>, hashPii: Value -> string): (r: Batch<User>)
    ensures r.Aborted? <==> exists i :: 0 <= i < |data| && UserOf(data[i], hashPii).Abort?
    ensures r.Extracted? ==> forall x :: x in r.items ==> exists i :: 0 <= i < |data| && UserOf(data[i], hashPii) == Keep(x)
    ensures r.Extracted? ==> forall i :: 0 <= i < |data| && UserOf(data[i], hashPii).Keep? ==> UserOf(data[i], hashPii).value in r.items
  {
    ExtractAll(data, u => UserOf(u, hashPii))
  }

  /** `extract_address_data_for_storage`: the addresses of the batch in order, or the abort of the cycle. */
  function ExtractAddresses(data: seq<Value>, show: Value -> string): (r: Batch<Address>)
    ensures r.Aborted? <==> exists i :: 0 <= i < |data| && AddressOf(data[i], show).Abort?
    ensures r.Extracted? ==> forall x :: x in r.items ==> exists i :: 0 <= i < |data| && AddressOf(data[i], show) == Keep(x)
    ensures r.Extracted? ==> forall i :: 0 <= i < |data| && AddressOf(data[i], show).Keep? ==> AddressOf(data[i], show).value in r.items
  {
    ExtractAll(data, a => AddressOf(a, show))
  }

  /** Every produced user carries the raw `login.uuid` of some record of the batch; none is invented. */
  lemma ExtractedUsersCarryRawUids(data: seq<Value>, hashPii: Value -> string)
    requires ExtractUsers(data, hashPii).Extracted?
    ensures var users := ExtractUsers(data, hashPii).items;
      forall x :: x in users ==> exists i :: 0 <= i < |data| && HasUid(data[i]) && x.uid == RawUid(data[i])
  {
    var users := ExtractUsers(data, hashPii).items;
    forall x | x in users
      ensures exists i :: 0 <= i < |data| && HasUid(data[i]) && x.uid == RawUid(data[i])
    {
      var i :| 0 <= i < |data| && UserOf(data[i], hashPii) == Keep(x);
    }
  }

  /**
   * The two passes are independent: a record with a `login.uuid` but no `name` yields an
   * address and no user, so the lists need not have equal length or line up.
   */
  lemma NamelessRecordYieldsOnlyAnAddress(r: Value, hashPii: Value -> string, show: Value -> string)
    requires HasUid(r) && "name" !in r.fields
    requires !NotDictAt(r, "location") && !StreetNotDict(r)
    ensures ExtractUsers([r], hashPii) == Extracted([])
    ensures ExtractAddresses([r], show) == Extracted([AddressOf(r, show).value])
  {
  }

  /**
   * A pass whose records are kept wherever another pass keeps them yields at least as many
   * items, as long as neither pass aborts.
   */
  lemma {:induction false} KeptWhereverLonger<T, U>(data: seq<Value>, f: Value -> Outcome<T>, g: Value -> Outcome<U>)
    requires forall i :: 0 <= i < |data| && f(data[i]).Keep? ==> !g(data[i]).Skip?
    requires ExtractAll(data, f).Extracted? && ExtractAll(data, g).Extracted?
    ensures |ExtractAll(data, f).items| <= |ExtractAll(data, g).items|
    decreases |data|
  {
    if |data| > 0 {
      assert forall i :: 1 <= i < |data| ==> data[i] == data[1..][i - 1];
      KeptWhereverLonger(data[1..], f, g);
    }
  }

  /**
   * Every user a clean cycle extracts is paired with an address: a kept user has a
   * `login.uuid`, and the address pass keeps every record with one unless it aborts. So
   * the positional zip of the cache write never drops a user.
   */
  lemma EveryUserIsZipped(data: seq<Value>, hashPii: Value -> string, show: Value -> string)
    requires ExtractUsers(data, hashPii).Extracted? && ExtractAddresses(data, show).Extracted?
    ensures |ExtractUsers(data, hashPii).items| <= |ExtractAddresses(data, show).items|
  {
    KeptWhereverLonger(data, u => UserOf(u, hashPii), a => AddressOf(a, show));
  }
}

/**
 * How the two stores' answers relate. When both are written from the same user and address
 * dicts of one uid, the durable fallback of `get_user` (src/api.py:70-87) shows the same
 * values the cache entry (src/storage.py:33-57) holds.
 */
module Agreement {
  import opened Json
  import opened Cache
  import opened Durable
  import opened Gateway

  /**
   * A user dict and an address dict of the same uid can feed both stores. The row the join
   * builds from them carries the same values as the cache entry built from the same pair,
   * field for field, with `uid` in place of `password` and no `ts`.
   */
  lemma JoinRowMatchesCacheEntry(ud: Record, uad: Record)
    requires UserFromRecord(ud).Some? && AddressFromRecord(uad).Some?
    requires ud["uid"] == uad["uid"]
    ensures var h := Flatten(ud, uad);
      JoinRow(UserFromRecord(ud).value, AddressFromRecord(uad).value) ==
        [ud["uid"], h[FirstName], h[LastName], h[Username], h[Email], h[PhoneNumber],
         h[SocialInsuranceNumber], h[DateOfBirth],
         h[City], h[StreetName], h[StreetAddress], h[ZipCode], h[State], h[Country]]
  {
    UserColumnsMatchCache(ud, uad);
    AddressColumnsMatchCache(ud, uad);
  }

  /** The user columns of the row are the cache entry's user fields. */
  lemma UserColumnsMatchCache(ud: Record, uad: Record)
    requires UserFromRecord(ud).Some?
    ensures var h, u := Flatten(ud, uad), UserFromRecord(ud).value;
      && h[FirstName] == u.firstName && h[LastName] == u.lastName && h[Username] == u.username
      && h[Email] == u.email && h[PhoneNumber] == u.phoneNumber
      && h[SocialInsuranceNumber] == u.socialInsuranceNumber && h[DateOfBirth] == u.dateOfBirth
  {
    FlattenAt(ud, uad, FirstName);
    FlattenAt(ud, uad, LastName);
    FlattenAt(ud, uad, Username);
    FlattenAt(ud, uad, Email);
    FlattenAt(ud, uad, PhoneNumber);
    FlattenAt(ud, uad, SocialInsuranceNumber);
    FlattenAt(ud, uad, DateOfBirth);
  }

  /** The address columns of the row are the cache entry's address fields. */
  lemma AddressColumnsMatchCache(ud: Record, uad: Record)
    requires AddressFromRecord(uad).Some?
    ensures var h, a := Flatten(ud, uad), AddressFromRecord(uad).value;
      && h[City] == a.city && h[StreetName] == a.streetName && h[StreetAddress] == a.streetAddress
      && h[ZipCode] == a.zipCode && h[State] == a.state && h[Country] == a.country
  {
    FlattenAt(ud, uad, City);
    FlattenAt(ud, uad, StreetName);
    FlattenAt(ud, uad, StreetAddress);
    FlattenAt(ud, uad, ZipCode);
    FlattenAt(ud, uad, State);
    FlattenAt(ud, uad, Country);
  }
}

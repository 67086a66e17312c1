/**
 * The user record shared by model/User.java and entity/UserEntity.java (the two hold the
 * same fields and are copied field for field), and its phones.
 */
module Model {
  import opened Wrappers

  /** A `LocalDate`, as its count of days from the epoch. */
  type Date = int

  /** A phone owned by a user; it has no identity outside its owner. */
  datatype Phone = Phone(number: string, citycode: string, countrycode: string)

  /**
   * A user. Every field is a Java reference and may be null (`None`); the store only
   * ever holds users whose `id` is set.
   */
  datatype User = User(
    id: Option<string>,
    name: Option<string>,
    email: Option<string>,
    password: Option<string>,
    phones: Option<seq<Phone>>,
    created: Option<Date>,
    modified: Option<Date>,
    lastLogin: Option<Date>,
    token: Option<string>,
    isActive: Option<bool>)

  predicate IsLowerHex(c: char) { '0' <= c <= '9' || 'a' <= c <= 'f' }

  /**
   * The canonical text of a `java.util.UUID`, as `UUID.toString` writes it and
   * `UUID.fromString` reads it back: 8-4-4-4-12 lowercase hexadecimal digits.
   */
  predicate IsUuid(s: string) {
    && |s| == 36
    && s[8] == '-' && s[13] == '-' && s[18] == '-' && s[23] == '-'
    && forall i :: 0 <= i < 36 && i != 8 && i != 13 && i != 18 && i != 23 ==> IsLowerHex(s[i])
  }
}

/**
 * The user record the management table shows (the `get` shape of `userDTO`);
 * each field is the record's snake_case key in camelCase.
 */
module User {
  import opened Wrappers

  /** `authorities` may be absent or null; both are `None`. */
  datatype User = User(
    id: int,
    firstName: string,
    lastName: string,
    email: string,
    phone: string,
    smsYn: string,
    activated: bool,
    langKey: string,
    createdDate: string,
    resetDate: string,
    authorities: Option<seq<string>>,
    password: string)
}

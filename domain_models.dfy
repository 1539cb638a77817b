/**
 * The `User` entity as the API reads and writes it: DomainModels/User.cs
 * declares only `Name` (and the `Id` inherited from Common.cs), but the
 * controller and the token service also use `Email` and `PasswordHash`.
 * Every field is nullable, as the `??` of the token service treats them.
 */
module DomainModels {
  import opened Wrappers

  datatype User = User(
    id: Option<string>,
    name: Option<string>,
    email: Option<string>,
    passwordHash: Option<string>)
}

/** The user record served by the directory (server/src/types.ts). Records are
    produced once at start-up and only read afterwards. */
module UserModel {

  datatype User = User(
    id: string,
    firstName: string,
    lastName: string,
    age: int,
    nationality: string,
    hobbies: seq<string>,
    avatar: string)
}

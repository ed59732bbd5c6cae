/** User registration and profile updates: the required-field check on a new user, the
    defaults it fills in, the fields an update overwrites, and the DTO that is handed out
    (which never carries the password). */
module UserServices {
  import opened Orders

  const MSG_REQUIRED: string := "All fields (firstName, lastName, email, password) are required"
  /** The failure of looking up a missing user id; the lookup belongs to the user repository. */
  const MSG_NO_SUCH_USER: string := "User not found"

  /** The body of a user-creation request; `None` is a JSON null. */
  datatype CreateUserDTO = CreateUserDTO(firstName: Option<string>, lastName: Option<string>,
                                         email: Option<string>, permissions: Option<set<string>>,
                                         password: Option<string>)

  /** What the service hands out for a user, and the body of an update request. */
  datatype UserDTO = UserDTO(id: UserId, firstName: string, lastName: string, email: string,
                             permissions: set<string>)

  // ---------------------------------------------------------------- String.trim

  /** Java's `trim` treats every character up to the space as white space. */
  predicate IsTrimmable(c: char) { c <= ' ' }

  function TrimStart(s: string): string {
    if s != [] && IsTrimmable(s[0]) then TrimStart(s[1..]) else s
  }

  function TrimEnd(s: string): string {
    if s != [] && IsTrimmable(s[|s| - 1]) then TrimEnd(s[..|s| - 1]) else s
  }

  /** `String.trim`: `s` without its leading and trailing white space. */
  function Trim(s: string): string {
    TrimEnd(TrimStart(s))
  }

  /** Trimming the front drops a white-space prefix and stops at the first other character. */
  lemma {:induction false} TrimStartDropsWhitespacePrefix(s: string)
    ensures var r := TrimStart(s);
            && |r| <= |s| && r == s[|s| - |r|..]
            && (r != [] ==> !IsTrimmable(r[0]))
            && (forall i :: 0 <= i < |s| - |r| ==> IsTrimmable(s[i]))
  {
    if s != [] && IsTrimmable(s[0]) {
      var t := s[1..];
      TrimStartDropsWhitespacePrefix(t);
      var r := TrimStart(t);
      assert t[|t| - |r|..] == s[|s| - |r|..];
      forall i | 0 <= i < |s| - |r| ensures IsTrimmable(s[i]) {
        if i > 0 {
          assert s[i] == t[i - 1];
        }
      }
    }
  }

  /** Trimming the back drops a white-space suffix and stops at the last other character. */
  lemma {:induction false} TrimEndDropsWhitespaceSuffix(s: string)
    ensures var r := TrimEnd(s);
            && |r| <= |s| && r == s[..|r|]
            && (r != [] ==> !IsTrimmable(r[|r| - 1]))
            && (forall i :: |r| <= i < |s| ==> IsTrimmable(s[i]))
  {
    if s != [] && IsTrimmable(s[|s| - 1]) {
      var t := s[..|s| - 1];
      TrimEndDropsWhitespaceSuffix(t);
      var r := TrimEnd(t);
      assert t[..|r|] == s[..|r|];
      forall i | |r| <= i < |s| ensures IsTrimmable(s[i]) {
        if i < |t| {
          assert s[i] == t[i];
        }
      }
    }
  }

  /** `trim` cuts out a contiguous middle part, only white space around it, and the part
      neither starts nor ends with white space. */
  lemma TrimIsInfix(s: string)
    ensures exists a, b :: 0 <= a <= b <= |s| && Trim(s) == s[a..b]
                           && (forall i :: 0 <= i < a ==> IsTrimmable(s[i]))
                           && (forall i :: b <= i < |s| ==> IsTrimmable(s[i]))
    ensures Trim(s) != [] ==> !IsTrimmable(Trim(s)[0]) && !IsTrimmable(Trim(s)[|Trim(s)| - 1])
  {
    var t := TrimStart(s);
    TrimStartDropsWhitespacePrefix(s);
    TrimEndDropsWhitespaceSuffix(t);
    var a := |s| - |t|;
    var b := a + |TrimEnd(t)|;
    assert Trim(s) == s[a..b];
    forall i | b <= i < |s| ensures IsTrimmable(s[i]) {
      assert s[i] == t[i - a];
    }
    if Trim(s) != [] {
      assert Trim(s)[0] == t[0];
    }
  }

  /** `s.trim().isEmpty()`. */
  predicate IsBlank(s: string) { Trim(s) == [] }

  /** A string is blank exactly when every character of it is white space. */
  lemma BlankIffAllWhitespace(s: string)
    ensures IsBlank(s) <==> forall i :: 0 <= i < |s| ==> IsTrimmable(s[i])
  {
    TrimIsInfix(s);
    var t := TrimStart(s);
    TrimStartDropsWhitespacePrefix(s);
    TrimEndDropsWhitespaceSuffix(t);
    if !(forall i :: 0 <= i < |s| ==> IsTrimmable(s[i])) {
      var i :| 0 <= i < |s| && !IsTrimmable(s[i]);
      assert |s| - |t| <= i;
      assert t[i - (|s| - |t|)] == s[i];
    }
  }

  // ---------------------------------------------------------------- the field rules

  /** A required field: present and not blank. */
  predicate Present(field: Option<string>) {
    field.Some? && !IsBlank(field.value)
  }

  /** The required-field check of `createUser`. */
  predicate HasRequiredFields(dto: CreateUserDTO) {
    Present(dto.firstName) && Present(dto.lastName) && Present(dto.email) && Present(dto.password)
  }

  /** `mapToDTO`: every field but the password. */
  function ToUserDTO(u: User): (r: UserDTO)
    ensures r.id == u.id && r.firstName == u.firstName && r.lastName == u.lastName
    ensures r.email == u.email && r.permissions == u.permissions
  {
    UserDTO(u.id, u.firstName, u.lastName, u.email, u.permissions)
  }

  /** The user `createUser` saves: the names and email as given, permissions defaulting to
      the empty set, and the encoder's output as password. */
  function NewUser(id: UserId, dto: CreateUserDTO, encode: string -> string): (u: User)
    requires HasRequiredFields(dto)
    ensures u.id == id && u.firstName == dto.firstName.value && u.lastName == dto.lastName.value
    ensures u.email == dto.email.value && u.password == encode(dto.password.value)
    ensures u.permissions == if dto.permissions.Some? then dto.permissions.value else {}
  {
    User(id, dto.firstName.value, dto.lastName.value, dto.email.value, encode(dto.password.value),
         if dto.permissions.Some? then dto.permissions.value else {})
  }

  /** The fields `updateUser` overwrites; the id and the password are kept. */
  function ApplyUpdate(u: User, dto: UserDTO): (r: User)
    ensures r.id == u.id && r.password == u.password
  {
    u.(email := dto.email, firstName := dto.firstName, lastName := dto.lastName, permissions := dto.permissions)
  }

  /** An update takes effect completely: the updated user maps back to the request. */
  lemma UpdateRoundTrip(u: User, dto: UserDTO)
    requires dto.id == u.id
    ensures ToUserDTO(ApplyUpdate(u, dto)) == dto
  {
  }

  /** Mapping a user and writing the result back as an update changes nothing. */
  lemma UpdateWithOwnDTOIsIdentity(u: User)
    ensures ApplyUpdate(u, ToUserDTO(u)) == u
  {
  }

  // ---------------------------------------------------------------- the service

  class UserService {
    var users: map<UserId, User>
    var nextUserId: nat

    ghost predicate Valid()
      reads this
    {
      forall id :: id in users ==> id < nextUserId && users[id].id == id
    }

    constructor()
      ensures users == map[] && nextUserId == 0 && Valid()
    {
      users, nextUserId := map[], 0;
    }

    /** `createUser`; `encode` is the password encoder. */
    method CreateUser(dto: CreateUserDTO, encode: string -> string) returns (r: Result<UserDTO>)
      requires Valid()
      modifies this
      ensures Valid()
      ensures !HasRequiredFields(dto) ==>
                r == Err(MSG_REQUIRED) && users == old(users) && nextUserId == old(nextUserId)
      ensures HasRequiredFields(dto) ==>
                && var u := NewUser(old(nextUserId), dto, encode);
                && old(nextUserId) !in old(users)
                && users == old(users)[u.id := u] && nextUserId == old(nextUserId) + 1
                && r == Ok(ToUserDTO(u))
    {
      if dto.firstName.None? || IsBlank(dto.firstName.value)
         || dto.lastName.None? || IsBlank(dto.lastName.value)
         || dto.email.None? || IsBlank(dto.email.value)
         || dto.password.None? || IsBlank(dto.password.value) {
        return Err(MSG_REQUIRED);
      }
      var newUser := NewUser(nextUserId, dto, encode);
      users := users[newUser.id := newUser];
      nextUserId := nextUserId + 1;
      r := Ok(ToUserDTO(newUser));
    }

    /** `updateUser`. */
    method UpdateUser(dto: UserDTO) returns (r: Result<UserDTO>)
      requires Valid()
      modifies this
      ensures Valid() && nextUserId == old(nextUserId)
      ensures dto.id !in old(users) ==> r == Err(MSG_NO_SUCH_USER) && users == old(users)
      ensures dto.id in old(users) ==>
                && users == old(users)[dto.id := ApplyUpdate(old(users)[dto.id], dto)]
                && r == Ok(dto)
    {
      if dto.id !in users {
        return Err(MSG_NO_SUCH_USER);
      }
      var user := users[dto.id];
      user := user.(email := dto.email, firstName := dto.firstName, lastName := dto.lastName,
                    permissions := dto.permissions);
      users := users[dto.id := user];
      r := Ok(ToUserDTO(user));
    }
  }
}

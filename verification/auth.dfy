/** The sheet-based login: a linear search over the user records, comparing
    the string forms of username and password; and logout. */
module Auth {
  import opened Basics
  import opened Text

  const WrongCredentialsMessage: string := "아이디 또는 비밀번호가 잘못되었습니다."
  const LoginErrorPrefix: string := "로그인 중 오류가 발생했습니다: "

  /** A sheet cell: the records hold text, or a number where the sheet saw one. */
  datatype Cell = TextCell(text: string) | IntCell(n: int)

  /** Python's `str(...)` of a cell. */
  function Str(c: Cell): string {
    match c
    case TextCell(t) => t
    case IntCell(n) => Show(n)
  }

  datatype UserRecord = UserRecord(username: Cell, password: Cell, name: Cell)

  datatype LoginResult = LoggedIn(name: Cell) | Refused(message: string)

  predicate Matches(r: UserRecord, username: Cell, password: Cell) {
    Str(r.username) == Str(username) && Str(r.password) == Str(password)
  }

  /** `login(username, password)` over the fetched records; a fetch that
      raises yields a refusal with the error message, never an exception. */
  method Login(records: Fetch<seq<UserRecord>>, username: Cell, password: Cell) returns (r: LoginResult)
    ensures records.Raised? ==> r == Refused(LoginErrorPrefix + records.message)
    ensures records.Fetched? ==>
      (r.LoggedIn? <==> exists i :: 0 <= i < |records.value| && Matches(records.value[i], username, password))
    ensures records.Fetched? && r.LoggedIn? ==>
      exists i :: 0 <= i < |records.value|
        && Matches(records.value[i], username, password)
        && r.name == records.value[i].name
        && forall k :: 0 <= k < i ==> !Matches(records.value[k], username, password)
    ensures records.Fetched? && r.Refused? ==> r.message == WrongCredentialsMessage
  {
    match records
    case Raised(e) =>
      return Refused(LoginErrorPrefix + e);
    case Fetched(users) =>
      var i := 0;
      while i < |users|
        invariant 0 <= i <= |users|
        invariant forall k :: 0 <= k < i ==> !Matches(users[k], username, password)
      {
        if Str(users[i].username) == Str(username) && Str(users[i].password) == Str(password) {
          return LoggedIn(users[i].name);
        }
        i := i + 1;
      }
      return Refused(WrongCredentialsMessage);
  }

  /** The per-browser session state the pages keep. */
  datatype Session = Session(
    loggedIn: bool,
    username: Option<string>,
    name: Option<string>,
    expandedIdx: nat,
    allExpandedIdx: Option<nat>,
    selected: set<nat>)

  /** `logout()`: clears the login fields and keeps everything else. */
  function Logout(s: Session): (r: Session)
    ensures !r.loggedIn && r.username == None && r.name == None
    ensures r.expandedIdx == s.expandedIdx && r.allExpandedIdx == s.allExpandedIdx && r.selected == s.selected
  {
    s.(loggedIn := false, username := None, name := None)
  }
}

/** The credential check of the login form: find the first stored user whose
    roll number and password both match, store a session without secrets,
    and send the user to the page of their role.
 */
module Login {
  import opened Common
  import opened Model
  import opened SessionGate

  const InvalidCredentials: string := "Invalid roll number or password"

  /** The login form's state: the two inputs and the error line. */
  datatype LoginForm = LoginForm(rollNumber: string, password: string, error: string)

  /** What a submission produces: the storage afterwards, the form, and the
      route navigated to (none when the credentials were rejected). */
  datatype LoginResult = LoginResult(store: Store, form: LoginForm, navigate: Option<string>)

  /** `u.rollNumber === rollNumber && u.password === password` */
  function Matches(rollNumber: string, password: string): User -> bool {
    (u: User) => u.rollNumber == rollNumber && u.password == password
  }

  /** `i` is the position `users.find(..)` stops at. */
  predicate IsFirstMatch(users: seq<User>, rollNumber: string, password: string, i: int) {
    && 0 <= i < |users|
    && users[i].rollNumber == rollNumber && users[i].password == password
    && forall j :: 0 <= j < i ==> !(users[j].rollNumber == rollNumber && users[j].password == password)
  }

  /** The session's copy of a user: roll number, name, id and role only. */
  function PublicPart(u: User): SessionUser {
    SessionUser(u.rollNumber, u.name, u.id, u.role)
  }

  /** The page a freshly logged-in user is sent to. Any role other than the
      three known ones, including a missing role, falls back to the home page. */
  function RedirectFor(role: Option<string>): (route: string)
    ensures route == TeacherDashboardRoute <==> role == Some(TeacherRole)
    ensures route == AdminDashboardRoute <==> role == Some(AdminRole)
    ensures route == HomeRoute <==> role != Some(TeacherRole) && role != Some(AdminRole)
  {
    if role == Some(StudentRole) then HomeRoute
    else if role == Some(TeacherRole) then TeacherDashboardRoute
    else if role == Some(AdminRole) then AdminDashboardRoute
    else HomeRoute
  }

  /** The submit handler. The error line is cleared first, so a previous
      error never survives a submission. */
  function Submit(s: Store, form: LoginForm): (r: LoginResult)
    ensures r.form.rollNumber == form.rollNumber && r.form.password == form.password
    ensures r.navigate.Some? <==>
      exists i :: 0 <= i < |Users(s)| && Users(s)[i].rollNumber == form.rollNumber && Users(s)[i].password == form.password
    ensures r.navigate.Some? ==> exists i ::
      && IsFirstMatch(Users(s), form.rollNumber, form.password, i)
      && r.store == s.(auth := Some(Session(true, PublicPart(Users(s)[i]))))
      && r.navigate == Some(RedirectFor(Users(s)[i].role))
    ensures r.navigate.Some? ==> r.form.error == ""
    ensures r.navigate.None? ==> r.store == s && r.form.error == InvalidCredentials
  {
    var cleared := form.(error := "");
    var users := Users(s);
    var found := Find(users, Matches(form.rollNumber, form.password));
    if found.Some? then
      var u := users[found.value];
      assert IsFirstMatch(users, form.rollNumber, form.password, found.value);
      LoginResult(s.(auth := Some(Session(true, PublicPart(u)))), cleared, Some(RedirectFor(u.role)))
    else
      LoginResult(s, cleared.(error := InvalidCredentials), None)
  }

  /** The page the route names. Every other route, the home route included,
      is taken to the home page. */
  function PageAt(route: string): (p: Page)
    ensures p == TeacherDashboardPage <==> route == TeacherDashboardRoute
    ensures p == AdminDashboardPage <==> route == AdminDashboardRoute
    ensures p == HomePage <==> route != TeacherDashboardRoute && route != AdminDashboardRoute
  {
    if route == TeacherDashboardRoute then TeacherDashboardPage
    else if route == AdminDashboardRoute then AdminDashboardPage
    else HomePage
  }

  /** A successful login stores a live session for the matched user, and the
      page it navigates to admits that session. */
  lemma LoginLandsOnAdmittingPage(s: Store, form: LoginForm)
    requires exists i :: 0 <= i < |Users(s)| && Users(s)[i].rollNumber == form.rollNumber && Users(s)[i].password == form.password
    ensures var r := Submit(s, form);
      && r.store.auth.Some?
      && r.store.auth.value.status
      && r.store.auth.value.user.rollNumber == form.rollNumber
      && Enter(PageAt(r.navigate.value), r.store.auth) == Admitted(r.store.auth.value.user)
  {
    var r := Submit(s, form);
    var i :| IsFirstMatch(Users(s), form.rollNumber, form.password, i)
      && r.store == s.(auth := Some(Session(true, PublicPart(Users(s)[i]))))
      && r.navigate == Some(RedirectFor(Users(s)[i].role));
    var role := Users(s)[i].role;
    if role == Some(TeacherRole) {
      assert PageAt(r.navigate.value) == TeacherDashboardPage;
    } else if role == Some(AdminRole) {
      assert PageAt(r.navigate.value) == AdminDashboardPage;
    } else {
      assert PageAt(r.navigate.value) == HomePage;
    }
  }

  /** With no `users` entry nobody can log in, whatever the form holds. */
  lemma NoUsersNoLogin(s: Store, form: LoginForm)
    requires s.users.None?
    ensures Submit(s, form).navigate.None?
    ensures Submit(s, form).store == s
  {
  }

  /** The outcome does not depend on the error line left from a previous attempt. */
  lemma SubmitForgetsPreviousError(s: Store, form: LoginForm, previous: string)
    ensures Submit(s, form) == Submit(s, form.(error := previous))
  {
  }

  /** The worked example: one student account `CS001`/`password123`. */
  lemma StudentExample()
    ensures var u := User("1", "John Doe", "CS001", "john@example.com", "password123", Some(StudentRole));
      var s := EmptyStore.(users := Some([u]));
      && Submit(s, LoginForm("CS001", "password123", "")).navigate == Some(HomeRoute)
      && Submit(s, LoginForm("CS001", "password123", "")).store.auth
           == Some(Session(true, SessionUser("CS001", "John Doe", "1", Some(StudentRole))))
      && Submit(s, LoginForm("CS001", "wrong", "")).form.error == InvalidCredentials
  {
    var u := User("1", "John Doe", "CS001", "john@example.com", "password123", Some(StudentRole));
    var s := EmptyStore.(users := Some([u]));
    assert IsFirstMatch([u], "CS001", "password123", 0);
    assert "wrong" != "password123";
  }
}

/**
 * The browser's session controller: the `token` and `user` entries of
 * local storage, `currentUser`, the pending and finished task lists, the
 * visible section of the page and the two counters in the list headings.
 *
 * Server responses and the answers to `confirm()` dialogs are inputs.
 * Each handler returns the requests it sent (`Call`s, in order) and the
 * messages it showed (alerts and the login error box, in order). What a
 * handler does is given by a function of the state before it (`Load`,
 * `HandleAuthStep`, `AddStep`, ...); the `Session` methods assign the
 * fields as the script does and are proved to agree with those functions.
 */
module Client {
  import opened Text
  import opened Wire
  import UserModel
  import AuthRoutes
  import TaskRoutes

  type Claims = AuthRoutes.Claims
  type Summary = AuthRoutes.Summary
  type Entry = TaskRoutes.Entry
  type TaskId = TaskRoutes.TaskId

  /** Which part of the page is visible: before `checkAuth` has run, the
      login form (`mostrarLogin`) or the task lists (`mostrarApp`). */
  datatype Screen = Undecided | LoginShown | AppShown

  /** Everything the controller keeps. `pendingCount` and `doneCount` are
      the numbers written into the two headings, `None` until the first
      write. */
  datatype State = State(
    token: Option<Claims>,
    user: Option<Summary>,
    currentUser: Option<Summary>,
    pending: seq<Entry>,
    done: seq<Entry>,
    screen: Screen,
    pendingCount: Option<nat>,
    doneCount: Option<nat>)

  /** A request the client sends; task requests carry the stored token. */
  datatype Call =
    | AuthCall(endpoint: string, username: string, password: string)
    | ListCall(bearer: Claims)
    | CreateCall(bearer: Claims, text: string)
    | DeleteCall(bearer: Claims, id: TaskId)
    | ToggleCall(bearer: Claims, id: TaskId, completed: bool)

  /** The answer to an auth request: `response.ok` with its token and user,
      a refusal with the body's optional `error`, or no usable answer (the
      request or the JSON decoding threw). */
  datatype AuthResponse =
    | AuthAccepted(token: Claims, user: Summary)
    | AuthRejected(error: Option<string>)
    | AuthUnreachable

  /** The answer to a task request: a status and, for a listing, the tasks
      of the body; or no answer at all. */
  datatype Response =
    | Answered(status: int, entries: seq<Entry>)
    | Unreachable

  /** A handler's effect: the new state, the requests sent, the messages
      shown. */
  datatype Step = Step(state: State, calls: seq<Call>, notices: seq<string>)

  const MsgFillAll := "Por favor completa todos los campos"
  const MsgShortUsername := "El usuario debe tener al menos 3 caracteres"
  const MsgShortPassword := "La contraseña debe tener al menos 6 caracteres"
  const MsgAuthDefault := "Error al autenticar"
  const MsgConnection := "Error de conexión con el servidor"
  const MsgExpired := "Tu sesión ha expirado. Por favor inicia sesión nuevamente."
  const MsgLoadFailed := "No se pudieron cargar las tareas. Verifica tu conexión."
  const MsgEmptyTask := "Por favor escribe una tarea antes de agregar"
  const MsgLoginToAdd := "Debes iniciar sesión para agregar tareas"
  const MsgLoginRequired := "Debes iniciar sesión"
  const MsgAddFailed := "No se pudo agregar la tarea."
  const MsgDeleteFailed := "No se pudo eliminar la tarea. Intenta de nuevo."
  const MsgToggleFailed := "No se pudo actualizar la tarea. Intenta de nuevo."

  const RegisterEndpoint := "/auth/register"
  const LoginEndpoint := "/auth/login"

  // ---------------------------------------------------------------------
  // The partition of the server's list
  // ---------------------------------------------------------------------

  /** `ts.filter(t => t.completed == completed)`: the tasks with that flag,
      in the order of `ts`. */
  function Keep(ts: seq<Entry>, completed: bool): (r: seq<Entry>)
    ensures |r| <= |ts|
    ensures forall i | 0 <= i < |r| :: r[i].task.completed == completed
  {
    if ts == [] then []
    else (if ts[0].task.completed == completed then [ts[0]] else []) + Keep(ts[1..], completed)
  }

  /** The pending list `tareasPorHacer`. */
  function Pending(ts: seq<Entry>): seq<Entry> { Keep(ts, false) }

  /** The finished list `tareasTerminadas`. */
  function Done(ts: seq<Entry>): seq<Entry> { Keep(ts, true) }

  /** A task is kept exactly when it is in the list and has the flag. */
  lemma {:induction false} KeepMembers(ts: seq<Entry>, completed: bool)
    ensures forall x :: x in Keep(ts, completed) <==> x in ts && x.task.completed == completed
  {
    if ts != [] {
      KeepMembers(ts[1..], completed);
      assert ts == [ts[0]] + ts[1..];
    }
  }

  /** Filtering keeps the order: filtering a concatenation concatenates
      the filtered parts. */
  lemma {:induction false} KeepAppend(a: seq<Entry>, b: seq<Entry>, completed: bool)
    ensures Keep(a + b, completed) == Keep(a, completed) + Keep(b, completed)
  {
    if a != [] {
      KeepAppend(a[1..], b, completed);
      assert (a + b)[1..] == a[1..] + b;
      var head := if a[0].task.completed == completed then [a[0]] else [];
      calc {
        Keep(a + b, completed);
        head + Keep(a[1..] + b, completed);
        head + (Keep(a[1..], completed) + Keep(b, completed));
        (head + Keep(a[1..], completed)) + Keep(b, completed);
      }
    } else {
      assert a + b == b;
    }
  }

  /** Every task of the server's list lands in exactly one of the two
      lists, as often as it occurs: the two lists together are a
      permutation of the server's list. */
  lemma {:induction false} PartitionIsPermutation(ts: seq<Entry>)
    ensures multiset(Pending(ts)) + multiset(Done(ts)) == multiset(ts)
    ensures |Pending(ts)| + |Done(ts)| == |ts|
  {
    if ts != [] {
      PartitionIsPermutation(ts[1..]);
      assert ts == [ts[0]] + ts[1..];
    }
  }

  // ---------------------------------------------------------------------
  // Session transitions
  // ---------------------------------------------------------------------

  /** `handleLogout`: when the user confirms, both storage keys, the current
      user and both lists are cleared and the login form is shown; when the
      user declines, nothing changes. The heading counters are not
      rewritten. */
  function Logout(s: State, confirmed: bool): State {
    if confirmed then
      s.(token := None, user := None, currentUser := None, pending := [], done := [], screen := LoginShown)
    else s
  }

  /** `actualizarContadores`. */
  function UpdateCounters(s: State): State {
    s.(pendingCount := Some(|s.pending|), doneCount := Some(|s.done|))
  }

  /** The headings show the lengths of the two lists. */
  predicate CountersMatch(s: State) {
    s.pendingCount == Some(|s.pending|) && s.doneCount == Some(|s.done|)
  }

  /** `cargarTareas`: without a stored token nothing is sent; a 401 or 403
      goes through `handleLogout` (and so through its `confirm`); another
      failure shows an alert; success splits the list and updates the
      counters. */
  function Load(s: State, resp: Response, confirmLogout: bool): Step {
    if s.token.None? then Step(s, [], [])
    else
      var call := ListCall(s.token.value);
      match resp
      case Unreachable => Step(s, [call], [MsgLoadFailed])
      case Answered(status, entries) =>
        if IsAuthFailure(status) then Step(Logout(s, confirmLogout), [call], [MsgExpired])
        else if !IsOk(status) then Step(s, [call], [MsgLoadFailed])
        else Step(UpdateCounters(s.(pending := Pending(entries), done := Done(entries))), [call], [])
  }

  /** `checkAuth` at page load: the session is resumed only when both
      storage keys are set; then the task list is loaded. */
  function CheckAuthStep(s: State, resp: Response, confirmLogout: bool): Step {
    if s.token.Some? && s.user.Some? then
      Load(s.(currentUser := s.user, screen := AppShown), resp, confirmLogout)
    else Step(s.(screen := LoginShown), [], [])
  }

  /** The form checks of `handleAuth`, on the trimmed values, in order:
      both filled, username of at least 3, password of at least 6. */
  function ClientAuthCheck(username: string, password: string): (r: Option<string>)
    ensures r.None? <==> username != "" && password != "" && |username| >= 3 && |password| >= 6
    ensures r == Some(MsgFillAll) <==> username == "" || password == ""
    ensures r == Some(MsgShortUsername) <==> username != "" && password != "" && |username| < 3
    ensures r == Some(MsgShortPassword) <==> username != "" && password != "" && |username| >= 3 && |password| < 6
  {
    if username == "" || password == "" then Some(MsgFillAll)
    else if |username| < 3 then Some(MsgShortUsername)
    else if |password| < 6 then Some(MsgShortPassword)
    else None
  }

  /** `handleAuth`: the trimmed form values are checked; if they pass they
      are posted to the register or login endpoint. On success the token and
      user are stored, `currentUser` is set, the task view is shown and the
      list is loaded; on failure the error is shown and the session stays as
      it was. */
  function HandleAuthStep(s: State, isRegister: bool, rawUsername: string, rawPassword: string,
                          resp: AuthResponse, listResp: Response, confirmLogout: bool): Step {
    var username := Trim(rawUsername);
    var password := Trim(rawPassword);
    match ClientAuthCheck(username, password)
    case Some(msg) => Step(s, [], [msg])
    case None =>
      var call := AuthCall(if isRegister then RegisterEndpoint else LoginEndpoint, username, password);
      match resp
      case AuthAccepted(token, user) =>
        var loaded := Load(s.(token := Some(token), user := Some(user), currentUser := Some(user), screen := AppShown),
                           listResp, confirmLogout);
        Step(loaded.state, [call] + loaded.calls, loaded.notices)
      case AuthRejected(error) =>
        Step(s, [call], [if error.Some? && error.value != "" then error.value else MsgAuthDefault])
      case AuthUnreachable =>
        Step(s, [call], [MsgConnection])
  }

  /** The common tail of the three task mutations: a 401 or 403 goes
      through `handleLogout`, another failure shows `failure`, success
      reloads the list. */
  function AfterMutation(s: State, call: Call, resp: Response, listResp: Response, confirmLogout: bool,
                         failure: string): Step {
    match resp
    case Unreachable => Step(s, [call], [failure])
    case Answered(status, _) =>
      if IsAuthFailure(status) then Step(Logout(s, confirmLogout), [call], [MsgExpired])
      else if !IsOk(status) then Step(s, [call], [failure])
      else
        var loaded := Load(s, listResp, confirmLogout);
        Step(loaded.state, [call] + loaded.calls, loaded.notices)
  }

  /** `agregarTarea`: the trimmed text is checked before the token. */
  function AddStep(s: State, rawText: string, resp: Response, listResp: Response, confirmLogout: bool): Step {
    var text := Trim(rawText);
    if text == "" then Step(s, [], [MsgEmptyTask])
    else if s.token.None? then Step(s, [], [MsgLoginToAdd])
    else AfterMutation(s, CreateCall(s.token.value, text), resp, listResp, confirmLogout, MsgAddFailed)
  }

  /** `eliminarTarea`: token first, then the confirmation dialog. */
  function RemoveStep(s: State, id: TaskId, confirmDelete: bool, resp: Response, listResp: Response,
                      confirmLogout: bool): Step {
    if s.token.None? then Step(s, [], [MsgLoginRequired])
    else if !confirmDelete then Step(s, [], [])
    else AfterMutation(s, DeleteCall(s.token.value, id), resp, listResp, confirmLogout, MsgDeleteFailed)
  }

  /** `toggleTarea`: asks the server for the opposite of the flag the task
      was shown with. */
  function ToggleStep(s: State, id: TaskId, wasCompleted: bool, resp: Response, listResp: Response,
                      confirmLogout: bool): Step {
    if s.token.None? then Step(s, [], [MsgLoginRequired])
    else AfterMutation(s, ToggleCall(s.token.value, id, !wasCompleted), resp, listResp, confirmLogout, MsgToggleFailed)
  }

  // ---------------------------------------------------------------------
  // Properties of the transitions
  // ---------------------------------------------------------------------

  /** At page load the task view is shown only when both the token and the
      user are stored; otherwise the login form is shown, nothing is sent
      and `currentUser` stays as it was. */
  lemma CheckAuthRequiresBoth(s: State, resp: Response, confirmLogout: bool)
    ensures var r := CheckAuthStep(s, resp, confirmLogout);
      && (r.state.screen == AppShown ==> s.token.Some? && s.user.Some? && r.state.currentUser == s.user)
      && (s.token.None? || s.user.None? ==> r == Step(s.(screen := LoginShown), [], []))
      && (s.token.Some? && s.user.Some? ==> r.calls == [ListCall(s.token.value)])
  {
  }

  /** After a successful load the pending list holds exactly the server's
      incomplete tasks and the finished list exactly its completed ones,
      both in the server's order, together a permutation of the server's
      list, and the headings show their lengths. */
  lemma {:induction false} LoadPartitions(s: State, status: int, entries: seq<Entry>, confirmLogout: bool)
    requires s.token.Some? && IsOk(status)
    ensures var r := Load(s, Answered(status, entries), confirmLogout).state;
      && (forall x :: x in r.pending <==> x in entries && !x.task.completed)
      && (forall x :: x in r.done <==> x in entries && x.task.completed)
      && (forall a, b :: entries == a + b ==> r.pending == Pending(a) + Pending(b) && r.done == Done(a) + Done(b))
      && multiset(r.pending) + multiset(r.done) == multiset(entries)
      && CountersMatch(r)
  {
    KeepMembers(entries, false);
    KeepMembers(entries, true);
    PartitionIsPermutation(entries);
    forall a, b | entries == a + b
      ensures Pending(entries) == Pending(a) + Pending(b) && Done(entries) == Done(a) + Done(b)
    {
      KeepAppend(a, b, false);
      KeepAppend(a, b, true);
    }
  }

  /** A 401 or 403 on any task request ends in `handleLogout`: with the
      dialog confirmed the session is cleared, with it declined nothing
      changes. */
  lemma ForcedLogoutAsksFirst(s: State, status: int, entries: seq<Entry>, text: string, id: TaskId,
                              flag: bool, listResp: Response, confirmLogout: bool)
    requires s.token.Some? && IsAuthFailure(status) && Trim(text) != ""
    ensures Load(s, Answered(status, entries), confirmLogout).state == Logout(s, confirmLogout)
    ensures AddStep(s, text, Answered(status, entries), listResp, confirmLogout).state == Logout(s, confirmLogout)
    ensures RemoveStep(s, id, true, Answered(status, entries), listResp, confirmLogout).state == Logout(s, confirmLogout)
    ensures ToggleStep(s, id, flag, Answered(status, entries), listResp, confirmLogout).state == Logout(s, confirmLogout)
    ensures Logout(s, false) == s
    ensures var c := Logout(s, true);
      c.token.None? && c.user.None? && c.currentUser.None? && c.pending == [] && c.done == [] && c.screen == LoginShown
  {
  }

  /** Without a stored token no task request is sent and nothing changes;
      an empty text is reported before the missing token is. */
  lemma NoTokenNoRequest(s: State, text: string, id: TaskId, flag: bool, confirmDelete: bool,
                         resp: Response, listResp: Response, confirmLogout: bool)
    requires s.token.None?
    ensures Load(s, resp, confirmLogout) == Step(s, [], [])
    ensures var r := AddStep(s, text, resp, listResp, confirmLogout);
      r.state == s && r.calls == [] && r.notices == [if Trim(text) == "" then MsgEmptyTask else MsgLoginToAdd]
    ensures RemoveStep(s, id, confirmDelete, resp, listResp, confirmLogout) == Step(s, [], [MsgLoginRequired])
    ensures ToggleStep(s, id, flag, resp, listResp, confirmLogout) == Step(s, [], [MsgLoginRequired])
  {
  }

  /** A text that is empty or all white space is never sent, whatever the
      session. */
  lemma BlankTaskNotSent(s: State, text: string, resp: Response, listResp: Response, confirmLogout: bool)
    requires AllSpace(text)
    ensures AddStep(s, text, resp, listResp, confirmLogout) == Step(s, [], [MsgEmptyTask])
  {
  }

  /** A toggle asks for the opposite of the flag the task was shown with,
      and a confirmed delete names the task; both carry the stored token. */
  lemma MutationsCarryToken(s: State, id: TaskId, wasCompleted: bool, resp: Response, listResp: Response,
                            confirmLogout: bool)
    requires s.token.Some?
    ensures ToggleStep(s, id, wasCompleted, resp, listResp, confirmLogout).calls[0]
      == ToggleCall(s.token.value, id, !wasCompleted)
    ensures RemoveStep(s, id, true, resp, listResp, confirmLogout).calls[0] == DeleteCall(s.token.value, id)
    ensures RemoveStep(s, id, false, resp, listResp, confirmLogout) == Step(s, [], [])
  {
  }

  /** A form that fails the checks sends nothing and changes nothing; the
      checks run in order (empty field, short username, short password). */
  lemma AuthFormChecks(s: State, isRegister: bool, rawUsername: string, rawPassword: string,
                       resp: AuthResponse, listResp: Response, confirmLogout: bool)
    ensures var u := Trim(rawUsername); var p := Trim(rawPassword);
      var r := HandleAuthStep(s, isRegister, rawUsername, rawPassword, resp, listResp, confirmLogout);
      && (ClientAuthCheck(u, p).Some? ==> r == Step(s, [], [ClientAuthCheck(u, p).value]))
      && (AllSpace(rawUsername) || AllSpace(rawPassword) ==> r == Step(s, [], [MsgFillAll]))
      && (ClientAuthCheck(u, p).None? ==>
            r.calls[0] == AuthCall(if isRegister then RegisterEndpoint else LoginEndpoint, u, p))
  {
  }

  /** A refused or failed sign-in sends only the auth request and leaves the
      session as it was. An accepted one sends the auth request and then the
      list request under the new token; the token, user and `currentUser`
      are the returned ones and the task view is shown, unless the list
      request answers 401 or 403 and the logout dialog is confirmed, in which
      case the session is cleared again. */
  lemma AuthOutcome(s: State, isRegister: bool, rawUsername: string, rawPassword: string,
                    resp: AuthResponse, listResp: Response, confirmLogout: bool)
    requires ClientAuthCheck(Trim(rawUsername), Trim(rawPassword)).None?
    ensures var r := HandleAuthStep(s, isRegister, rawUsername, rawPassword, resp, listResp, confirmLogout);
      var call := AuthCall(if isRegister then RegisterEndpoint else LoginEndpoint, Trim(rawUsername), Trim(rawPassword));
      && (!resp.AuthAccepted? ==> r.state == s && r.calls == [call])
      && (resp.AuthAccepted? ==>
            var forcedOut := listResp.Answered? && IsAuthFailure(listResp.status) && confirmLogout;
            && r.calls == [call, ListCall(resp.token)]
            && (!forcedOut ==>
                  && r.state.token == Some(resp.token) && r.state.user == Some(resp.user)
                  && r.state.currentUser == Some(resp.user) && r.state.screen == AppShown)
            && (forcedOut ==>
                  && r.state.token.None? && r.state.user.None? && r.state.currentUser.None?
                  && r.state.pending == [] && r.state.done == [] && r.state.screen == LoginShown))
  {
  }

  /** The client's checks are at least as strict as the server's: values
      that pass them, trimmed as the client sends them, pass the server's
      register checks, and the server looks the user up under the same
      name. */
  lemma {:induction false} ClientChecksImplyServerChecks(rawUsername: string, rawPassword: string)
    requires ClientAuthCheck(Trim(rawUsername), Trim(rawPassword)).None?
    ensures AuthRoutes.RegisterCheck(Str(Trim(rawUsername)), Str(Trim(rawPassword))).None?
    ensures Trim(Trim(rawUsername)) == Trim(rawUsername)
  {
    TrimIdempotent(rawUsername);
  }

  /** A confirmed logout after a successful load leaves the heading
      counters showing the old lengths of the now empty lists. */
  lemma LogoutLeavesCountersStale(s: State, status: int, entries: seq<Entry>)
    requires s.token.Some? && IsOk(status) && entries != []
    ensures var loaded := Load(s, Answered(status, entries), false).state;
      CountersMatch(loaded) && !CountersMatch(Logout(loaded, true))
  {
    PartitionIsPermutation(entries);
  }

  /** End to end: a task the server just created, listed for its owner and
      loaded by the client, is in the pending list with its text. */
  lemma {:induction false} CreatedTaskShowsAsPending(tasks: map<TaskId, TaskRoutes.Task>, caller: UserModel.UserId,
                                                     text: Field, id: TaskId, now: int, listing: seq<Entry>,
                                                     s: State, confirmLogout: bool)
    requires TaskRoutes.CreateSpec(tasks, caller, text, id, now).reply.status == StatusCreated
    requires TaskRoutes.IsListing(TaskRoutes.CreateSpec(tasks, caller, text, id, now).tasks, caller, listing)
    requires s.token.Some?
    ensures TaskRoutes.Entry(id, TaskRoutes.Task(caller, Trim(text.s), false, now))
      in Load(s, Answered(StatusOk, listing), confirmLogout).state.pending
  {
    TaskRoutes.CreateShowsInListing(tasks, caller, id, text, now, listing);
    KeepMembers(listing, false);
  }

  // ---------------------------------------------------------------------
  // The controller, with the script's module-level variables as fields
  // ---------------------------------------------------------------------

  class Session {
    var token: Option<Claims>
    var user: Option<Summary>
    var currentUser: Option<Summary>
    var pending: seq<Entry>
    var done: seq<Entry>
    var screen: Screen
    var pendingCount: Option<nat>
    var doneCount: Option<nat>

    function Snapshot(): State
      reads this
    {
      State(token, user, currentUser, pending, done, screen, pendingCount, doneCount)
    }

    /** Page load: the script's variables start empty and local storage
        holds whatever an earlier visit left. */
    constructor (storedToken: Option<Claims>, storedUser: Option<Summary>)
      ensures Snapshot() == State(storedToken, storedUser, None, [], [], Undecided, None, None)
    {
      token, user, currentUser := storedToken, storedUser, None;
      pending, done := [], [];
      screen := Undecided;
      pendingCount, doneCount := None, None;
    }

    method HandleLogout(confirmed: bool)
      modifies this
      ensures Snapshot() == Logout(old(Snapshot()), confirmed)
    {
      if confirmed {
        token := None;
        user := None;
        currentUser := None;
        pending := [];
        done := [];
        screen := LoginShown;
      }
    }

    method ActualizarContadores()
      modifies this
      ensures Snapshot() == UpdateCounters(old(Snapshot()))
    {
      pendingCount := Some(|pending|);
      doneCount := Some(|done|);
    }

    method CargarTareas(resp: Response, confirmLogout: bool) returns (calls: seq<Call>, notices: seq<string>)
      modifies this
      ensures Step(Snapshot(), calls, notices) == Load(old(Snapshot()), resp, confirmLogout)
    {
      if token.None? {
        return [], [];
      }
      calls := [ListCall(token.value)];
      match resp {
        case Unreachable =>
          notices := [MsgLoadFailed];
        case Answered(status, entries) =>
          if IsAuthFailure(status) {
            notices := [MsgExpired];
            HandleLogout(confirmLogout);
          } else if !IsOk(status) {
            notices := [MsgLoadFailed];
          } else {
            pending := Keep(entries, false);
            done := Keep(entries, true);
            ActualizarContadores();
            notices := [];
          }
      }
    }

    method CheckAuth(resp: Response, confirmLogout: bool) returns (calls: seq<Call>, notices: seq<string>)
      modifies this
      ensures Step(Snapshot(), calls, notices) == CheckAuthStep(old(Snapshot()), resp, confirmLogout)
    {
      if token.Some? && user.Some? {
        currentUser := user;
        screen := AppShown;
        calls, notices := CargarTareas(resp, confirmLogout);
      } else {
        screen := LoginShown;
        calls, notices := [], [];
      }
    }

    method HandleAuth(isRegister: bool, rawUsername: string, rawPassword: string, resp: AuthResponse,
                      listResp: Response, confirmLogout: bool) returns (calls: seq<Call>, notices: seq<string>)
      modifies this
      ensures Step(Snapshot(), calls, notices)
        == HandleAuthStep(old(Snapshot()), isRegister, rawUsername, rawPassword, resp, listResp, confirmLogout)
    {
      var username := Trim(rawUsername);
      var password := Trim(rawPassword);
      var check := ClientAuthCheck(username, password);
      if check.Some? {
        return [], [check.value];
      }
      var call := AuthCall(if isRegister then RegisterEndpoint else LoginEndpoint, username, password);
      match resp {
        case AuthAccepted(t, u) =>
          token := Some(t);
          user := Some(u);
          currentUser := Some(u);
          screen := AppShown;
          assert Snapshot() == old(Snapshot()).(token := Some(t), user := Some(u), currentUser := Some(u),
                                                screen := AppShown);
          var more;
          more, notices := CargarTareas(listResp, confirmLogout);
          calls := [call] + more;
        case AuthRejected(error) =>
          calls := [call];
          notices := [if error.Some? && error.value != "" then error.value else MsgAuthDefault];
        case AuthUnreachable =>
          calls := [call];
          notices := [MsgConnection];
      }
    }

    method FinishMutation(call: Call, resp: Response, listResp: Response, confirmLogout: bool, failure: string)
      returns (calls: seq<Call>, notices: seq<string>)
      modifies this
      ensures Step(Snapshot(), calls, notices) == AfterMutation(old(Snapshot()), call, resp, listResp, confirmLogout, failure)
    {
      calls := [call];
      match resp {
        case Unreachable =>
          notices := [failure];
        case Answered(status, _) =>
          if IsAuthFailure(status) {
            notices := [MsgExpired];
            HandleLogout(confirmLogout);
          } else if !IsOk(status) {
            notices := [failure];
          } else {
            var more;
            more, notices := CargarTareas(listResp, confirmLogout);
            calls := calls + more;
          }
      }
    }

    method AgregarTarea(rawText: string, resp: Response, listResp: Response, confirmLogout: bool)
      returns (calls: seq<Call>, notices: seq<string>)
      modifies this
      ensures Step(Snapshot(), calls, notices) == AddStep(old(Snapshot()), rawText, resp, listResp, confirmLogout)
    {
      var text := Trim(rawText);
      if text == "" {
        return [], [MsgEmptyTask];
      }
      if token.None? {
        return [], [MsgLoginToAdd];
      }
      calls, notices := FinishMutation(CreateCall(token.value, text), resp, listResp, confirmLogout, MsgAddFailed);
    }

    method EliminarTarea(id: TaskId, confirmDelete: bool, resp: Response, listResp: Response, confirmLogout: bool)
      returns (calls: seq<Call>, notices: seq<string>)
      modifies this
      ensures Step(Snapshot(), calls, notices)
        == RemoveStep(old(Snapshot()), id, confirmDelete, resp, listResp, confirmLogout)
    {
      if token.None? {
        return [], [MsgLoginRequired];
      }
      if !confirmDelete {
        return [], [];
      }
      calls, notices := FinishMutation(DeleteCall(token.value, id), resp, listResp, confirmLogout, MsgDeleteFailed);
    }

    method ToggleTarea(id: TaskId, wasCompleted: bool, resp: Response, listResp: Response, confirmLogout: bool)
      returns (calls: seq<Call>, notices: seq<string>)
      modifies this
      ensures Step(Snapshot(), calls, notices)
        == ToggleStep(old(Snapshot()), id, wasCompleted, resp, listResp, confirmLogout)
    {
      if token.None? {
        return [], [MsgLoginRequired];
      }
      calls, notices := FinishMutation(ToggleCall(token.value, id, !wasCompleted), resp, listResp, confirmLogout,
                                       MsgToggleFailed);
    }
  }
}

/**
 * The component's state and its event handlers, as pure transitions over a
 * value.  The network is an append-only log of requests; the list a GET
 * returns is carried by the event that issues the GET.
 */
module Handlers {
  import opened Records
  import opened Search

  /** `adminDialog.action`: '' , 'update' or 'delete'. */
  datatype Action = NoAction | UpdateAction | DeleteAction

  /** `adminDialog`: `{ open, action, studentId }`. */
  datatype AdminDialog = AdminDialog(open: bool, action: Action, studentId: Option<string>)

  /** `{ open: false, action: '', studentId: null }`, the initial and the reset gate. */
  const ClosedGate := AdminDialog(false, NoAction, None)

  /** The requests the component sends to `/api/students`. */
  datatype Request =
    | Get
    | Post(body: Draft)
    | Put(target: string, body: Draft, password: string)
    | Delete(target: string, password: string)

  predicate IsMutation(m: Request)
  {
    m.Put? || m.Delete?
  }

  /** The component's state variables, and the requests sent so far. */
  datatype AppState = AppState(
    students: seq<Student>,
    search: string,
    open: bool,
    form: Draft,
    editId: Option<string>,
    adminDialog: AdminDialog,
    adminPassword: string,
    requests: seq<Request>)

  /** The `useState` initial values; nothing has been sent yet. */
  function Init(): (s: AppState)
    ensures s.students == [] && s.requests == [] && !s.open && s.editId == None
    ensures !s.adminDialog.open && s.form.fields == EmptyFields
  {
    AppState([], "", false, BlankDraft, None, ClosedGate, "", [])
  }

  /** The rows the table shows (line 27). */
  function Visible(s: AppState): (r: seq<Student>)
    ensures forall x :: x in r <==> x in s.students && Matches(x, s.search)
  {
    Filter(s.students, s.search)
  }

  /** JavaScript truthiness of `editId`: `null` and the empty string are false. */
  predicate Truthy(id: Option<string>)
  {
    id.Some? && id.value != ""
  }

  /** The path segment `${studentId}` adds to the URL; `null` prints as "null". */
  function UrlSegment(id: Option<string>): string
  {
    match id
    case Some(v) => v
    case None => "null"
  }

  /** The mutating request `handleAdminAction` sends for the pending action, if any. */
  function Dispatch(g: AdminDialog, form: Draft, password: string): seq<Request>
  {
    match g.action
    case UpdateAction => [Put(UrlSegment(g.studentId), form, password)]
    case DeleteAction => [Delete(UrlSegment(g.studentId), password)]
    case NoAction => []
  }

  /** One user action or handler call; `reload` is what the GET it issues returns. */
  datatype Event =
    | Load(reload: seq<Student>)           // fetchStudents
    | SearchInput(text: string)            // handleSearch
    | OpenEditor(student: Option<Student>) // handleOpen / handleOpen(student)
    | CloseEditor                          // handleClose
    | EditField(field: Field, value: string) // handleChange
    | Submit(reload: seq<Student>)         // handleSubmit
    | DeleteClick(id: string)              // handleDelete
    | PasswordInput(text: string)          // the password field's onChange
    | Confirm(reload: seq<Student>)        // handleAdminAction
    | CancelGate                           // the gate's onClose and Cancel button

  /** The state after one handler has run to completion. */
  function Step(s: AppState, e: Event): (r: AppState)
    ensures s.requests <= r.requests && |r.requests| <= |s.requests| + 2
    ensures forall i :: |s.requests| <= i < |r.requests| && IsMutation(r.requests[i]) ==>
      e.Confirm? && s.adminDialog.action != NoAction && !r.adminDialog.open
    ensures r.students != s.students ==> r.requests != [] && r.requests[|r.requests| - 1] == Get
  {
    match e
    case Load(l) =>
      s.(requests := s.requests + [Get], students := l)
    case SearchInput(t) =>
      s.(search := t)
    case OpenEditor(st) =>
      (match st
       case Some(x) => s.(form := DraftOf(x), editId := Some(x.id))
       case None => s.(form := BlankDraft, editId := None)).(open := true)
    case CloseEditor =>
      s.(open := false)
    case EditField(k, v) =>
      s.(form := s.form.(fields := WithField(s.form.fields, k, v)))
    case Submit(l) =>
      if Truthy(s.editId) then
        s.(adminDialog := AdminDialog(true, UpdateAction, s.editId))
      else
        s.(requests := s.requests + [Post(s.form), Get], students := l, open := false)
    case DeleteClick(id) =>
      s.(adminDialog := AdminDialog(true, DeleteAction, Some(id)))
    case PasswordInput(t) =>
      s.(adminPassword := t)
    case Confirm(l) =>
      s.(requests := s.requests + Dispatch(s.adminDialog, s.form, s.adminPassword) + [Get],
         adminDialog := ClosedGate, adminPassword := "", students := l, open := false)
    case CancelGate =>
      s.(adminDialog := ClosedGate)
  }

  /** The state after a sequence of handlers, run one after another. */
  function Run(s: AppState, evs: seq<Event>): (r: AppState)
    ensures |r.requests| <= |s.requests| + 2 * |evs|
    decreases |evs|
  {
    if evs == [] then s else Run(Step(s, evs[0]), evs[1..])
  }

  /** Running a non-empty sequence runs its first handler, then the rest. */
  lemma RunCons(s: AppState, e: Event, rest: seq<Event>)
    ensures Run(s, [e] + rest) == Run(Step(s, e), rest)
  {
  }

  /**
   * The gate's invariant: an open gate always has an action and a target, and
   * a closed gate is the reset value.
   */
  predicate Valid(s: AppState)
  {
    && (s.adminDialog.open ==> s.adminDialog.action != NoAction && s.adminDialog.studentId.Some?)
    && (!s.adminDialog.open ==> s.adminDialog == ClosedGate)
  }

  lemma InitValid()
    ensures Valid(Init())
  {
  }

  lemma StepPreservesValid(s: AppState, e: Event)
    requires Valid(s)
    ensures Valid(Step(s, e))
  {
  }

  /** Every state reached from a valid one by any handlers is valid. */
  lemma {:induction false} RunPreservesValid(s: AppState, evs: seq<Event>)
    requires Valid(s)
    ensures Valid(Run(s, evs))
    decreases |evs|
  {
    if evs != [] {
      StepPreservesValid(s, evs[0]);
      RunPreservesValid(Step(s, evs[0]), evs[1..]);
    }
  }

  /** The request log only grows: what was sent stays sent, in order. */
  lemma {:induction false} RunAppendsOnly(s: AppState, evs: seq<Event>)
    ensures s.requests <= Run(s, evs).requests
    decreases |evs|
  {
    if evs != [] {
      var t := Step(s, evs[0]);
      assert s.requests <= t.requests;
      RunAppendsOnly(t, evs[1..]);
    }
  }

  /** The number of PUT and DELETE requests in a log. */
  function Mutations(log: seq<Request>): nat
  {
    if log == [] then 0 else (if IsMutation(log[0]) then 1 else 0) + Mutations(log[1..])
  }

  lemma {:induction false} MutationsAppend(a: seq<Request>, b: seq<Request>)
    ensures Mutations(a + b) == Mutations(a) + Mutations(b)
  {
    if a != [] {
      assert (a + b)[1..] == a[1..] + b;
      MutationsAppend(a[1..], b);
    } else {
      assert a + b == b;
    }
  }

  /** The user actions that open the admin gate: Update on an existing record, and Delete. */
  predicate OpensGate(s: AppState, e: Event)
  {
    (e.Submit? && Truthy(s.editId)) || e.DeleteClick?
  }

  /** How many of the events open the gate, each judged in the state it runs in. */
  function Openings(s: AppState, evs: seq<Event>): nat
    decreases |evs|
  {
    if evs == [] then 0
    else (if OpensGate(s, evs[0]) then 1 else 0) + Openings(Step(s, evs[0]), evs[1..])
  }

  function GateCount(s: AppState): nat
  {
    if s.adminDialog.open then 1 else 0
  }

  /**
   * One handler sends at most one PUT or DELETE, and only by consuming an open
   * gate: mutations sent plus gates left open never exceed gates opened.
   */
  lemma StepAccounting(s: AppState, e: Event)
    requires Valid(s)
    ensures Mutations(Step(s, e).requests) + GateCount(Step(s, e))
         <= Mutations(s.requests) + GateCount(s) + (if OpensGate(s, e) then 1 else 0)
    ensures Mutations(Step(s, e).requests) <= Mutations(s.requests) + 1
    ensures Mutations(Step(s, e).requests) > Mutations(s.requests) ==>
      e.Confirm? && s.adminDialog.open && !Step(s, e).adminDialog.open
  {
    match e
    case Load(l) =>
      assert [Get][1..] == [];
      MutationsAppend(s.requests, [Get]);
    case Submit(l) =>
      if !Truthy(s.editId) {
        assert [Post(s.form), Get][1..] == [Get] && [Get][1..] == [];
        MutationsAppend(s.requests, [Post(s.form), Get]);
      }
    case Confirm(l) =>
      var d := Dispatch(s.adminDialog, s.form, s.adminPassword);
      assert [Get][1..] == [];
      MutationsAppend(s.requests + d, [Get]);
      MutationsAppend(s.requests, d);
      if d != [] {
        assert d == [d[0]] && d[1..] == [];
        assert Mutations(d) == 1;
      }
    case _ =>
  }

  /**
   * No PUT or DELETE without passing the gate: over any run from a valid
   * state, each mutating request sent is paid for by a distinct gate opening.
   */
  lemma {:induction false} RunAccounting(s: AppState, evs: seq<Event>)
    requires Valid(s)
    ensures Mutations(Run(s, evs).requests) + GateCount(Run(s, evs))
         <= Mutations(s.requests) + GateCount(s) + Openings(s, evs)
    decreases |evs|
  {
    if evs != [] {
      StepAccounting(s, evs[0]);
      StepPreservesValid(s, evs[0]);
      RunAccounting(Step(s, evs[0]), evs[1..]);
    }
  }

  /** From a closed gate, a run that never opens the gate sends no PUT and no DELETE. */
  lemma NoMutationWithoutGate(s: AppState, evs: seq<Event>)
    requires Valid(s) && !s.adminDialog.open
    requires Openings(s, evs) == 0
    ensures Mutations(Run(s, evs).requests) == Mutations(s.requests)
  {
    RunAppendsOnly(s, evs);
    var t := Run(s, evs);
    assert t.requests == s.requests + t.requests[|s.requests|..];
    MutationsAppend(s.requests, t.requests[|s.requests|..]);
    RunAccounting(s, evs);
  }

  /**
   * Confirming an open gate sends exactly the pending mutation, aimed at the
   * gate's target with the typed password, followed by one reload.
   */
  lemma ConfirmSendsPending(s: AppState, l: seq<Student>)
    requires Valid(s) && s.adminDialog.open
    ensures var t := Step(s, Confirm(l));
      && |t.requests| == |s.requests| + 2
      && t.requests[..|s.requests|] == s.requests
      && t.requests[|s.requests| + 1] == Get
      && (s.adminDialog.action == UpdateAction ==>
            t.requests[|s.requests|] == Put(s.adminDialog.studentId.value, s.form, s.adminPassword))
      && (s.adminDialog.action == DeleteAction ==>
            t.requests[|s.requests|] == Delete(s.adminDialog.studentId.value, s.adminPassword))
  {
  }

  /**
   * The edit flow: open the editor on a listed student, change the email,
   * submit (the gate opens, nothing is sent), type the password, confirm.
   * Exactly one PUT to that student with the new email and the password
   * goes out, then one GET, whose result becomes the list.
   */
  lemma EditFlow(s: AppState, x: Student, email: string, pw: string, l: seq<Student>)
    requires x.id != ""
    ensures var evs := [OpenEditor(Some(x)), EditField(Email, email), Submit([]), PasswordInput(pw), Confirm(l)];
      var t := Run(s, evs);
      && t.requests == s.requests + [Put(x.id, Draft(Some(x.id), x.fields.(email := email)), pw), Get]
      && t.students == l
      && !t.adminDialog.open && t.adminPassword == "" && !t.open
  {
    var s1 := Step(s, OpenEditor(Some(x)));
    var s2 := Step(s1, EditField(Email, email));
    var s3 := Step(s2, Submit([]));
    assert s3.requests == s.requests && s3.adminDialog == AdminDialog(true, UpdateAction, Some(x.id));
    var s4 := Step(s3, PasswordInput(pw));
    var s5 := Step(s4, Confirm(l));
    RunCons(s, OpenEditor(Some(x)), [EditField(Email, email), Submit([]), PasswordInput(pw), Confirm(l)]);
    RunCons(s1, EditField(Email, email), [Submit([]), PasswordInput(pw), Confirm(l)]);
    RunCons(s2, Submit([]), [PasswordInput(pw), Confirm(l)]);
    RunCons(s3, PasswordInput(pw), [Confirm(l)]);
    RunCons(s4, Confirm(l), []);
  }

  /** Deleting and then cancelling the gate sends nothing and keeps the list. */
  lemma DeleteThenCancel(s: AppState, id: string)
    ensures var t := Run(s, [DeleteClick(id), CancelGate]);
      t.requests == s.requests && t.students == s.students && !t.adminDialog.open
  {
    var s1 := Step(s, DeleteClick(id));
    RunCons(s, DeleteClick(id), [CancelGate]);
    RunCons(s1, CancelGate, []);
  }

  /**
   * Cancelling the gate keeps the typed password: a later Delete on another
   * student, confirmed without typing anything, sends that password.
   */
  lemma CancelKeepsPassword(s: AppState, a: string, b: string, pw: string, l: seq<Student>)
    ensures var t := Run(s, [DeleteClick(a), PasswordInput(pw), CancelGate, DeleteClick(b), Confirm(l)]);
      t.requests == s.requests + [Delete(b, pw), Get]
  {
    var s1 := Step(s, DeleteClick(a));
    var s2 := Step(s1, PasswordInput(pw));
    var s3 := Step(s2, CancelGate);
    var s4 := Step(s3, DeleteClick(b));
    RunCons(s, DeleteClick(a), [PasswordInput(pw), CancelGate, DeleteClick(b), Confirm(l)]);
    RunCons(s1, PasswordInput(pw), [CancelGate, DeleteClick(b), Confirm(l)]);
    RunCons(s2, CancelGate, [DeleteClick(b), Confirm(l)]);
    RunCons(s3, DeleteClick(b), [Confirm(l)]);
    RunCons(s4, Confirm(l), []);
  }

  /**
   * An empty `_id` is falsy: editing a listed student whose id is "" and
   * submitting posts the draft as a new record, without opening the gate.
   */
  lemma EmptyIdTakesCreatePath(s: AppState, x: Student, l: seq<Student>)
    requires x.id == ""
    ensures var t := Run(s, [OpenEditor(Some(x)), Submit(l)]);
      && t.requests == s.requests + [Post(DraftOf(x)), Get]
      && t.adminDialog == s.adminDialog
      && t.students == l && !t.open
  {
    var s1 := Step(s, OpenEditor(Some(x)));
    RunCons(s, OpenEditor(Some(x)), [Submit(l)]);
    RunCons(s1, Submit(l), []);
  }

  /**
   * In a valid state, confirming a closed gate sends only the reload: the
   * `null` target that `UrlSegment` would print is never used.
   */
  lemma ConfirmClosedGateSendsNoMutation(s: AppState, l: seq<Student>)
    requires Valid(s) && !s.adminDialog.open
    ensures Step(s, Confirm(l)).requests == s.requests + [Get]
    ensures forall m :: m in Step(s, Confirm(l)).requests[|s.requests|..] ==> !IsMutation(m)
  {
  }

  /** Submitting a new student never opens the gate: it posts the draft and reloads. */
  lemma CreateNeverGates(s: AppState, l: seq<Student>)
    requires !Truthy(s.editId)
    ensures !OpensGate(s, Submit(l))
    ensures Step(s, Submit(l)).adminDialog == s.adminDialog
    ensures Step(s, Submit(l)).requests == s.requests + [Post(s.form), Get]
  {
  }
}

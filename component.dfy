/**
 * The `App` component as an object: one field per state variable, one method
 * per handler.  Each method overwrites the fields the handler sets, appends
 * the requests it sends to `requests`, and ends in the state `Handlers.Step`
 * gives, so the run lemmas of `Handlers` apply to any sequence of calls.
 */
module Component {
  import opened Records
  import opened Handlers
  import opened Search

  class App {
    var students: seq<Student>
    var search: string
    var open: bool
    var form: Draft
    var editId: Option<string>
    var adminDialog: AdminDialog
    var adminPassword: string
    /** Every request sent so far, oldest first. */
    var requests: seq<Request>

    function State(): AppState
      reads this
    {
      AppState(students, search, open, form, editId, adminDialog, adminPassword, requests)
    }

    /** `filteredStudents`, the rows each render shows. */
    function Filtered(): (r: seq<Student>)
      reads this
      ensures forall x :: x in r <==> x in students && Matches(x, search)
    {
      Visible(State())
    }

    ghost predicate Valid()
      reads this
    {
      Handlers.Valid(State())
    }

    /** The `useState` initial values. */
    constructor ()
      ensures Valid()
      ensures students == [] && search == "" && !open && form == BlankDraft && editId == None
      ensures adminDialog == ClosedGate && adminPassword == "" && requests == []
      ensures State() == Init()
    {
      students, search, open, form := [], "", false, BlankDraft;
      editId, adminDialog, adminPassword := None, ClosedGate, "";
      requests := [];
    }

    /** `fetchStudents`: one GET, whose result replaces the list. */
    method FetchStudents(resp: seq<Student>)
      requires Valid()
      modifies this
      ensures Valid()
      ensures State() == old(State()).(students := resp, requests := old(requests) + [Get])
      ensures State() == Step(old(State()), Load(resp))
    {
      requests := requests + [Get];
      students := resp;
    }

    /** `handleSearch`: stores the text; no request. */
    method HandleSearch(text: string)
      requires Valid()
      modifies this
      ensures Valid()
      ensures State() == old(State()).(search := text)
      ensures State() == Step(old(State()), SearchInput(text))
    {
      search := text;
    }

    /**
     * `handleOpen(student)` seeds the form with the student and remembers its
     * id; `handleOpen()` resets the form and forgets the id.  Both open the
     * editor and send nothing.
     */
    method HandleOpen(student: Option<Student>)
      requires Valid()
      modifies this
      ensures Valid()
      ensures open && requests == old(requests)
      ensures student.Some? ==> form == Draft(Some(student.value.id), student.value.fields) && editId == Some(student.value.id)
      ensures student.None? ==> form == BlankDraft && editId == None
      ensures State() == old(State()).(form := form, editId := editId, open := true)
      ensures State() == Step(old(State()), OpenEditor(student))
    {
      if student.Some? {
        form := DraftOf(student.value);
        editId := Some(student.value.id);
      } else {
        form := BlankDraft;
        editId := None;
      }
      open := true;
    }

    /** `handleClose`: closes the editor and keeps the draft. */
    method HandleClose()
      requires Valid()
      modifies this
      ensures Valid()
      ensures State() == old(State()).(open := false)
      ensures State() == Step(old(State()), CloseEditor)
    {
      open := false;
    }

    /** `handleChange`: writes the named field of the draft and no other. */
    method HandleChange(field: Field, value: string)
      requires Valid()
      modifies this
      ensures Valid()
      ensures form.id == old(form.id)
      ensures FieldValue(form.fields, field) == value
      ensures forall k :: k != field ==> FieldValue(form.fields, k) == FieldValue(old(form.fields), k)
      ensures State() == old(State()).(form := form)
      ensures State() == Step(old(State()), EditField(field, value))
    {
      form := form.(fields := WithField(form.fields, field, value));
    }

    /**
     * `handleSubmit`: with a (truthy) `editId` it only opens the gate for an
     * update of that id; otherwise it posts the draft, reloads and closes.
     */
    method HandleSubmit(reload: seq<Student>)
      requires Valid()
      modifies this
      ensures Valid()
      ensures Truthy(old(editId)) ==>
        State() == old(State()).(adminDialog := AdminDialog(true, UpdateAction, old(editId)))
      ensures !Truthy(old(editId)) ==>
        State() == old(State()).(requests := old(requests) + [Post(old(form)), Get],
                                 students := reload, open := false)
      ensures State() == Step(old(State()), Submit(reload))
    {
      if Truthy(editId) {
        adminDialog := AdminDialog(true, UpdateAction, editId);
      } else {
        requests := requests + [Post(form)];
        FetchStudents(reload);
        HandleClose();
      }
    }

    /** `handleDelete`: opens the gate for a delete of `id`; no request. */
    method HandleDelete(id: string)
      requires Valid()
      modifies this
      ensures Valid()
      ensures State() == old(State()).(adminDialog := AdminDialog(true, DeleteAction, Some(id)))
      ensures State() == Step(old(State()), DeleteClick(id))
    {
      adminDialog := AdminDialog(true, DeleteAction, Some(id));
    }

    /** The password field's `onChange`: stores the text verbatim. */
    method SetAdminPassword(text: string)
      requires Valid()
      modifies this
      ensures Valid()
      ensures State() == old(State()).(adminPassword := text)
      ensures State() == Step(old(State()), PasswordInput(text))
    {
      adminPassword := text;
    }

    /**
     * `handleAdminAction`: sends the one PUT or DELETE the pending action
     * calls for, resets the gate and the password, reloads and closes the
     * editor.
     */
    method HandleAdminAction(reload: seq<Student>)
      requires Valid()
      modifies this
      ensures Valid()
      ensures old(adminDialog.action) == UpdateAction ==>
        requests == old(requests) + [Put(old(adminDialog.studentId.value), old(form), old(adminPassword)), Get]
      ensures old(adminDialog.action) == DeleteAction ==>
        requests == old(requests) + [Delete(old(adminDialog.studentId.value), old(adminPassword)), Get]
      ensures old(adminDialog.action) == NoAction ==> requests == old(requests) + [Get]
      ensures adminDialog == ClosedGate && adminPassword == "" && students == reload && !open
      ensures State() == old(State()).(requests := requests, adminDialog := ClosedGate,
                                       adminPassword := "", students := reload, open := false)
      ensures State() == Step(old(State()), Confirm(reload))
    {
      if adminDialog.action == UpdateAction {
        requests := requests + [Put(UrlSegment(adminDialog.studentId), form, adminPassword)];
      } else if adminDialog.action == DeleteAction {
        requests := requests + [Delete(UrlSegment(adminDialog.studentId), adminPassword)];
      }
      adminDialog := ClosedGate;
      adminPassword := "";
      FetchStudents(reload);
      HandleClose();
    }

    /**
     * The gate's `onClose` and its Cancel button: the gate is reset and
     * nothing is sent; the password, draft, editor and list are kept.
     */
    method CancelAdminDialog()
      requires Valid()
      modifies this
      ensures Valid()
      ensures State() == old(State()).(adminDialog := ClosedGate)
      ensures State() == Step(old(State()), CancelGate)
    {
      adminDialog := ClosedGate;
    }
  }

  /**
   * The edit flow on the object: the calls a user makes to change a listed
   * student's email leave exactly one PUT and one GET behind.
   */
  method EditEmail(app: App, x: Student, email: string, pw: string, reload: seq<Student>)
    requires app.Valid() && x.id != ""
    modifies app
    ensures app.requests == old(app.requests) + [Put(x.id, Draft(Some(x.id), x.fields.(email := email)), pw), Get]
    ensures app.students == reload && !app.open && app.adminPassword == ""
  {
    app.HandleOpen(Some(x));
    app.HandleChange(Email, email);
    app.HandleSubmit([]);
    app.SetAdminPassword(pw);
    app.HandleAdminAction(reload);
    FieldsExtensional(WithField(x.fields, Email, email), x.fields.(email := email));
  }
}

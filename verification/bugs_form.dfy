/** The bug form: create or edit mode chosen once from the hand-off value, the
    field validators (with status required only for a "QA" reporter), the local
    list of pending comments, and the submit that turns the form into a create
    or an update call. */
module BugsForm {
  import opened Wrappers
  import opened BugsData
  import opened BugsService
  import EditHandOff

  /** The form controls. An empty text control is "" (it holds '' at start and
      null after a reset); an empty priority control is None. */
  datatype BugForm = BugForm(
    title: string,
    priority: Option<int>,
    reporter: string,
    status: string,
    description: string,
    commentReporter: string,
    commentDescription: string
  )

  const EmptyForm: BugForm := BugForm("", None, "", "", "", "", "")

  /** Create mode, or edit mode holding the record received from the hand-off slot. */
  datatype Mode = Create | Edit(bug: Bug)

  datatype FormState = FormState(
    mode: Mode,
    form: BugForm,
    statusRequired: bool,        // whether the status control carries the required validator
    bugComments: seq<Comment>,   // comments added in this form, not yet sent
    bugCreatedOrUpdated: bool
  )

  /** `BugsFormComponent.newBug`: true in create mode. */
  predicate NewBug(s: FormState) {
    s.mode.Create?
  }

  /** `fillData()`: copies the record's five editable fields into the form and nothing else. */
  function FillData(f: BugForm, bug: Bug): (r: BugForm)
    ensures r.title == bug.title && r.priority == Some(bug.priority) && r.reporter == bug.reporter
    ensures r.status == bug.status && r.description == bug.description
    ensures r.commentReporter == f.commentReporter && r.commentDescription == f.commentDescription
  {
    f.(title := bug.title, priority := Some(bug.priority), reporter := bug.reporter,
       status := bug.status, description := bug.description)
  }

  /** `ngOnInit()`: `received` is what the one-shot subscription to the hand-off
      slot delivers. A record switches to edit mode and fills the form; the
      empty sentinel leaves the form empty in create mode. Status starts with no validator. */
  function Init(received: Option<Bug>): (r: FormState)
    ensures NewBug(r) <==> received.None?
    ensures received.Some? ==> r.mode == Edit(received.value) && r.form == FillData(EmptyForm, received.value)
    ensures received.None? ==> r.form == EmptyForm
    ensures !r.statusRequired && r.bugComments == [] && !r.bugCreatedOrUpdated
  {
    match received
    case Some(bug) => FormState(Edit(bug), FillData(EmptyForm, bug), false, [], false)
    case None => FormState(Create, EmptyForm, false, [], false)
  }

  /** `validateStatus()`: status becomes required exactly when the reporter is "QA". */
  function ValidateStatus(s: FormState): (r: FormState)
    ensures r.statusRequired <==> s.form.reporter == "QA"
    ensures r == s.(statusRequired := r.statusRequired)
  {
    s.(statusRequired := s.form.reporter == "QA")
  }

  /** UTF-16 code units a character occupies: two for a character outside the
      Basic Multilingual Plane (a surrogate pair), one otherwise. */
  function Utf16Units(c: char): nat {
    if c as int < 0x1_0000 then 1 else 2
  }

  /** A JavaScript string's `length`: the number of UTF-16 code units. */
  function Utf16Length(v: string): (n: nat)
    ensures |v| <= n <= 2 * |v|
    decreases |v|
  {
    if |v| == 0 then 0 else Utf16Length(v[..|v| - 1]) + Utf16Units(v[|v| - 1])
  }

  /** For text without characters beyond the Basic Multilingual Plane, the
      JavaScript length is the character count. */
  lemma {:induction false} Utf16LengthOfBmp(v: string)
    requires forall i :: 0 <= i < |v| ==> v[i] as int < 0x1_0000
    ensures Utf16Length(v) == |v|
    decreases |v|
  {
    if |v| > 0 {
      Utf16LengthOfBmp(v[..|v| - 1]);
    }
  }

  /** Angular's `required`, `minLength` and `maxLength` on a text value, which
      compare the JavaScript `length`; the length checks let an empty value
      through, leaving that to `required`. */
  predicate Required(v: string) {
    Utf16Length(v) > 0
  }

  predicate MinLength(v: string, n: nat) {
    Utf16Length(v) == 0 || Utf16Length(v) >= n
  }

  predicate MaxLength(v: string, n: nat) {
    Utf16Length(v) <= n
  }

  predicate TitleValid(t: string) {
    Required(t) && MinLength(t, 4)
  }

  predicate PriorityValid(p: Option<int>) {
    p.Some?
  }

  predicate ReporterValid(r: string) {
    Required(r)
  }

  predicate DescriptionValid(d: string) {
    Required(d) && MinLength(d, 50) && MaxLength(d, 1000)
  }

  predicate StatusValid(s: FormState) {
    !s.statusRequired || Required(s.form.status)
  }

  predicate FormValid(s: FormState) {
    && TitleValid(s.form.title)
    && PriorityValid(s.form.priority)
    && ReporterValid(s.form.reporter)
    && StatusValid(s)
    && DescriptionValid(s.form.description)
  }

  /** Reference for the conditional rule: the names of the fields that must be filled in. */
  function RequiredFields(f: BugForm): set<string> {
    {"title", "priority", "reporter", "description"} + (if f.reporter == "QA" then {"status"} else {})
  }

  predicate Filled(f: BugForm, name: string) {
    if name == "title" then f.title != ""
    else if name == "priority" then f.priority.Some?
    else if name == "reporter" then f.reporter != ""
    else if name == "status" then f.status != ""
    else if name == "description" then f.description != ""
    else false
  }

  /** The validator chain of each field amounts to a plain length rule. */
  lemma FieldRules(f: BugForm)
    ensures TitleValid(f.title) <==> Utf16Length(f.title) >= 4
    ensures DescriptionValid(f.description) <==> 50 <= Utf16Length(f.description) <= 1000
    ensures PriorityValid(f.priority) <==> Filled(f, "priority")
    ensures ReporterValid(f.reporter) <==> Filled(f, "reporter")
  {
  }

  /** Lengths are JavaScript lengths: a title of two emoji (two surrogate pairs,
      length 4) is long enough, a title of one emoji is not. */
  lemma TitleCountsSurrogatePairs()
    ensures TitleValid("\U{1F600}\U{1F600}")
    ensures !TitleValid("\U{1F600}")
  {
  }

  /** Once the status validator is brought up to date, the form is valid exactly
      when every required field is filled and the length rules hold. */
  lemma ValidityMatchesRequiredFields(s: FormState)
    ensures var r := ValidateStatus(s);
      FormValid(r) <==>
        && (forall n | n in RequiredFields(r.form) :: Filled(r.form, n))
        && Utf16Length(r.form.title) >= 4
        && 50 <= Utf16Length(r.form.description) <= 1000
  {
    var r := ValidateStatus(s);
    var f := r.form;
    assert "title" in RequiredFields(f) && "priority" in RequiredFields(f);
    assert "reporter" in RequiredFields(f) && "description" in RequiredFields(f);
    if f.reporter == "QA" {
      assert "status" in RequiredFields(f);
    }
  }

  /** Status is checked only for a "QA" reporter: with every other field valid,
      an empty status fails for "QA" and passes for "Dev". */
  lemma StatusRuleExamples(s: FormState)
    requires Utf16Length(s.form.title) >= 4 && s.form.priority.Some?
    requires 50 <= Utf16Length(s.form.description) <= 1000
    requires s.form.status == ""
    ensures !FormValid(ValidateStatus(s.(form := s.form.(reporter := "QA"))))
    ensures FormValid(ValidateStatus(s.(form := s.form.(reporter := "Dev"))))
  {
  }

  /** `addComment()`: appends one comment built from the two draft fields to the
      pending list and clears both drafts; nothing else changes. */
  function AddComment(s: FormState): (r: FormState)
    ensures |r.bugComments| == |s.bugComments| + 1
    ensures r.bugComments[..|s.bugComments|] == s.bugComments
    ensures r.bugComments[|s.bugComments|] == Comment(None, s.form.commentReporter, s.form.commentDescription)
    ensures r.form == s.form.(commentReporter := "", commentDescription := "")
    ensures r.mode == s.mode && r.statusRequired == s.statusRequired
    ensures r.bugCreatedOrUpdated == s.bugCreatedOrUpdated
  {
    var comment := Comment(None, s.form.commentReporter, s.form.commentDescription);
    s.(bugComments := s.bugComments + [comment],
       form := s.form.(commentReporter := "", commentDescription := ""))
  }

  /** The user types a comment's reporter and description into the draft fields. */
  function TypeDraft(s: FormState, draft: (string, string)): FormState {
    s.(form := s.form.(commentReporter := draft.0, commentDescription := draft.1))
  }

  function DraftComments(drafts: seq<(string, string)>): seq<Comment> {
    seq(|drafts|, i requires 0 <= i < |drafts| => Comment(None, drafts[i].0, drafts[i].1))
  }

  /** Typing and adding each draft in turn. */
  function AddComments(s: FormState, drafts: seq<(string, string)>): FormState
    decreases |drafts|
  {
    if |drafts| == 0 then s
    else AddComment(TypeDraft(AddComments(s, drafts[..|drafts| - 1]), drafts[|drafts| - 1]))
  }

  /** Adding comments one by one yields the earlier list followed by the new
      comments in the order they were added. */
  lemma {:induction false} AddCommentsAppends(s: FormState, drafts: seq<(string, string)>)
    ensures AddComments(s, drafts).bugComments == s.bugComments + DraftComments(drafts)
    ensures AddComments(s, drafts).mode == s.mode
    decreases |drafts|
  {
    if |drafts| > 0 {
      var pre := drafts[..|drafts| - 1];
      AddCommentsAppends(s, pre);
      assert DraftComments(drafts) == DraftComments(pre) + [DraftComments(drafts)[|drafts| - 1]];
    }
  }

  /** The comments sent on update: the record's comments (if it has any)
      followed by the pending ones, each kept in order, none dropped or repeated. */
  function MergeComments(existing: Option<seq<Comment>>, pending: seq<Comment>): (r: seq<Comment>)
    ensures |r| == |existing.GetOr([])| + |pending|
    ensures r[..|existing.GetOr([])|] == existing.GetOr([])
    ensures r[|existing.GetOr([])|..] == pending
    ensures multiset(r) == multiset(existing.GetOr([])) + multiset(pending)
    ensures existing.None? ==> r == pending
  {
    match existing
    case Some(earlier) => earlier + pending
    case None => pending
  }

  /** `formSubmit()`: create mode posts the five fields; edit mode puts them
      under the record's own id, with its original `createdAt` and the merged comments. */
  function SubmitRequest(s: FormState): (r: Call)
    ensures r.PostDataCall? <==> NewBug(s)
    ensures r.PostDataCall? || r.PutDataCall?
    ensures r.title == s.form.title && r.priority == s.form.priority && r.reporter == s.form.reporter
    ensures r.status == s.form.status && r.description == s.form.description
    ensures s.mode.Edit? ==> r.id == s.mode.bug.id && r.createdAt == s.mode.bug.createdAt
    ensures s.mode.Edit? ==> r.comments == MergeComments(s.mode.bug.comments, s.bugComments)
  {
    var f := s.form;
    match s.mode
    case Create => PostDataCall(f.title, f.priority, f.reporter, f.status, f.description)
    case Edit(bug) =>
      PutDataCall(bug.id, f.title, f.priority, f.reporter, f.status, f.description,
                  bug.createdAt, MergeComments(bug.comments, s.bugComments))
  }

  /** The answer to a submit: success raises the saved flag and resets every
      control (the pending comments and the mode stay); an error changes nothing. */
  function SubmitResponse(s: FormState, resp: Response<Bug>): (r: FormState)
    ensures resp.Ok? ==> r.bugCreatedOrUpdated && r.form == EmptyForm
    ensures resp.Ok? ==> r.mode == s.mode && r.bugComments == s.bugComments && r.statusRequired == s.statusRequired
    ensures resp.Failed? ==> r == s
  {
    match resp
    case Ok(_) => s.(bugCreatedOrUpdated := true, form := EmptyForm)
    case Failed(_) => s
  }

  /** An update carries the record's id in its URL and the record's `createdAt`
      unchanged, with the existing comments followed by the pending ones. */
  lemma EditSubmitKeepsIdentity(s: FormState, now: Date, later: Date)
    requires s.mode.Edit?
    ensures var r := Request(SubmitRequest(s), now, later);
      && r.verb == PUT
      && r.url == ItemUrl(s.mode.bug.id)
      && r.body.Some?
      && r.body.value.createdAt == s.mode.bug.createdAt
      && r.body.value.comments == Some(MergeComments(s.mode.bug.comments, s.bugComments))
      && |r.body.value.comments.value| == |s.mode.bug.comments.GetOr([])| + |s.bugComments|
  {
  }

  /** A create carries the form's fields to the collection URL with no comments. */
  lemma CreateSubmitBody(s: FormState, now: Date, later: Date)
    requires NewBug(s)
    ensures var r := Request(SubmitRequest(s), now, later);
      && r.verb == POST
      && r.url == ListUrl()
      && r.body.Some?
      && r.body.value.comments.None?
      && r.body.value.title == s.form.title
      && r.body.value.priority == s.form.priority
      && r.body.value.reporter == s.form.reporter
      && r.body.value.status == s.form.status
      && r.body.value.description == s.form.description
  {
  }

  /** Editing a record and submitting at once sends back the record's own fields. */
  lemma EditUnchangedEchoesRecord(bug: Bug)
    ensures var s := Init(Some(bug));
      SubmitRequest(s) == PutDataCall(bug.id, bug.title, Some(bug.priority), bug.reporter, bug.status,
                                      bug.description, bug.createdAt, bug.comments.GetOr([]))
  {
  }

  /** What can happen to a form after `ngOnInit`. */
  datatype Event = Input(values: BugForm) | Validate | Add | Submitted(resp: Response<Bug>)

  function Apply(s: FormState, e: Event): FormState {
    match e
    case Input(values) => s.(form := values)
    case Validate => ValidateStatus(s)
    case Add => AddComment(s)
    case Submitted(resp) => SubmitResponse(s, resp)
  }

  function Run(s: FormState, evs: seq<Event>): FormState
    decreases |evs|
  {
    if |evs| == 0 then s else Apply(Run(s, evs[..|evs| - 1]), evs[|evs| - 1])
  }

  /** The mode never changes after initialisation, and pending comments are only
      ever appended to. */
  lemma {:induction false} ModeFixedCommentsGrow(s: FormState, evs: seq<Event>)
    ensures Run(s, evs).mode == s.mode
    ensures |s.bugComments| <= |Run(s, evs).bugComments|
    ensures Run(s, evs).bugComments[..|s.bugComments|] == s.bugComments
    decreases |evs|
  {
    if |evs| > 0 {
      var pre := evs[..|evs| - 1];
      ModeFixedCommentsGrow(s, pre);
      var t := Run(s, pre);
      if evs[|evs| - 1].Add? {
        assert t.bugComments[..|s.bugComments|] == s.bugComments;
        assert AddComment(t).bugComments[..|t.bugComments|] == t.bugComments;
        assert AddComment(t).bugComments[..|s.bugComments|] == t.bugComments[..|s.bugComments|];
      }
    }
  }

  /** The hand-off decides the mode: a form initialised while the published record
      is still in the slot edits that record; after the slot has expired it creates. */
  lemma HandOffDecidesMode(s: EditHandOff.Slot, bug: Bug, views: seq<EditHandOff.Event>)
    requires forall i :: 0 <= i < |views| ==> views[i].Read?
    ensures EditHandOff.Run(s, [EditHandOff.Publish(bug)] + views).Some?
    ensures EditHandOff.Run(s, [EditHandOff.Publish(bug)] + views + [EditHandOff.Expiry]).Some?
    ensures var held := EditHandOff.Run(s, [EditHandOff.Publish(bug)] + views).value;
      Init(EditHandOff.Subscribe(held)).mode == Edit(bug)
    ensures var gone := EditHandOff.Run(s, [EditHandOff.Publish(bug)] + views + [EditHandOff.Expiry]).value;
      NewBug(Init(EditHandOff.Subscribe(gone)))
  {
    EditHandOff.PublishThenExpire(s, bug, views);
  }
}

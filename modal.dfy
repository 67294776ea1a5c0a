/** The task dialog: the assignee checkboxes, what submitting the form and
    adding a comment send, the `@name` mentions of a comment, and the member
    suggestions offered while typing one. */
module Modal {
  import opened Common
  import opened Text
  import opened Domain
  import opened Client
  import TaskRoutes

  // ---------------------------------------------------------------------------
  // Assignees

  /** `toggleAssignee`: drops every occurrence of a present id, appends an absent one. */
  function ToggleAssignee(prev: seq<string>, userId: string): (r: seq<string>)
    ensures forall x :: x in r <==> if x == userId then userId !in prev else x in prev
    ensures userId !in prev ==> r == prev + [userId]
  {
    if userId in prev then Filter(prev, (x: string) => x != userId) else prev + [userId]
  }

  /** Checking a box and unchecking it again restores the selection; on a
      selection without repeats, unchecking and checking again moves the id to
      the end. */
  lemma ToggleTwice(prev: seq<string>, userId: string)
    ensures userId !in prev ==> ToggleAssignee(ToggleAssignee(prev, userId), userId) == prev
    ensures userId in prev ==>
      ToggleAssignee(ToggleAssignee(prev, userId), userId) == Filter(prev, (x: string) => x != userId) + [userId]
  {
    var p := (x: string) => x != userId;
    if userId !in prev {
      var once := prev + [userId];
      assert userId in once;
      FilterAppend(prev, [userId], p);
      FilterAll(prev, p);
      assert Filter([userId], p) == [];
    } else {
      assert userId !in Filter(prev, p);
    }
  }

  // ---------------------------------------------------------------------------
  // Submitting the form

  /** The dialog's form fields. */
  datatype TaskForm = TaskForm(
    title: string,
    description: string,
    column: string,
    priority: string,
    dueDate: Option<int>,
    assignedTo: seq<string>)

  /** The fields of a new task: empty, `todo`, `medium`, no due date, nobody assigned. */
  const EmptyForm: TaskForm := TaskForm("", "", "todo", "medium", None, [])

  /** The `useEffect` on `task`: the card's fields, an absent description as
      `''`, and the assignees as their ids. */
  function LoadTask(task: Card): (f: TaskForm)
    ensures f.title == task.title && f.column == task.column && f.priority == task.priority && f.dueDate == task.dueDate
    ensures f.description == if task.description.Some? then task.description.value else ""
    ensures task.assignedTo.None? ==> f.assignedTo == []
    ensures task.assignedTo.Some? ==>
      |f.assignedTo| == |task.assignedTo.value| && forall i :: 0 <= i < |f.assignedTo| ==> f.assignedTo[i] == IdOf(task.assignedTo.value[i])
  {
    var ids := if task.assignedTo.Some?
      then seq(|task.assignedTo.value|, i requires 0 <= i < |task.assignedTo.value| => var id: string := IdOf(task.assignedTo.value[i]); id)
      else [];
    TaskForm(task.title, if task.description.Some? then task.description.value else "", task.column, task.priority, task.dueDate, ids)
  }

  /** The request body `taskData`. */
  datatype TaskData = TaskData(
    title: string,
    description: string,
    project: string,
    column: string,
    priority: string,
    dueDate: Option<int>,
    assignedTo: seq<string>)

  datatype Submission = NoSubmit | Put(taskId: DocId, data: TaskData) | Post(data: TaskData)

  /** `handleSubmit`: nothing for a title that trims to nothing; otherwise the
      untrimmed form, as `PUT /tasks/:id` when a task is open and as
      `POST /tasks` when creating. */
  function Submit(form: TaskForm, task: Option<Card>, projectId: string): (r: Submission)
    ensures r.NoSubmit? <==> Trim(form.title) == []
    ensures r.Put? <==> Trim(form.title) != [] && task.Some?
    ensures !r.NoSubmit? ==>
      r.data == TaskData(form.title, form.description, projectId, form.column, form.priority, form.dueDate, form.assignedTo)
    ensures r.Put? ==> r.taskId == task.value.id
  {
    if Trim(form.title) == [] then NoSubmit
    else
      var data := TaskData(form.title, form.description, projectId, form.column, form.priority, form.dueDate, form.assignedTo);
      if task.Some? then Put(task.value.id, data) else Post(data)
  }

  /** The create body the server receives for a dialog's `POST`, given how the
      project and assignee ids read as server ids. */
  function ServerBody(data: TaskData, project: ObjectId, assignees: seq<ObjectId>): TaskRoutes.NewTask
  {
    TaskRoutes.NewTask(Some(data.title), Some(data.description), Some(project), Some(data.column), Some(data.priority), data.dueDate, assignees)
  }

  /** A task the dialog posts, with the column and priority its selects offer,
      passes the server's title check and the schema's enums: the only refusal
      left is a project the caller cannot see (404). */
  lemma PostedTaskPassesValidation(form: TaskForm, projectId: string, ps: seq<Project>, caller: ObjectId, project: ObjectId, assignees: seq<ObjectId>)
    requires UniqueProjectIds(ps)
    requires Submit(form, None, projectId).Post?
    requires ParseColumn(form.column).Some? && ParsePriority(form.priority).Some?
    ensures var body := ServerBody(Submit(form, None, projectId).data, project, assignees);
      TaskRoutes.CreateFailure(ps, caller, body) in {None, Some(NotFound)}
  {
    var body := ServerBody(Submit(form, None, projectId).data, project, assignees);
    TaskRoutes.CreateFailureCases(ps, caller, body);
  }

  /** Opening a task and saving it untouched sends the card's own fields back. */
  lemma UnchangedEditResends(task: Card, projectId: string)
    requires Trim(task.title) != []
    ensures var s := Submit(LoadTask(task), Some(task), projectId);
      && s.Put? && s.taskId == task.id
      && s.data.title == task.title && s.data.column == task.column && s.data.priority == task.priority
      && s.data.dueDate == task.dueDate
      && (task.assignedTo.Some? ==>
            |s.data.assignedTo| == |task.assignedTo.value| && forall i :: 0 <= i < |s.data.assignedTo| ==> s.data.assignedTo[i] == IdOf(task.assignedTo.value[i]))
  {
  }

  /** `handleAddComment`'s guard: a text that trims to something, on an existing task. */
  predicate SendsComment(text: string, task: Option<Card>)
  {
    Trim(text) != [] && task.Some?
  }

  // ---------------------------------------------------------------------------
  // Mentions

  /** The longest prefix of `s` made of `\w` characters. */
  function WordRun(s: string): (r: string)
    ensures |r| <= |s| && r == s[..|r|]
    ensures forall i :: 0 <= i < |r| ==> IsWordChar(r[i])
    ensures |r| < |s| ==> !IsWordChar(s[|r|])
    decreases |s|
  {
    if s == [] || !IsWordChar(s[0]) then [] else [s[0]] + WordRun(s[1..])
  }

  /** `text.match(/@(\w+)/g)`, each match with its `@` removed: scanning left to
      right, an `@` followed by word characters yields their longest run and
      the scan resumes after it. */
  function Mentions(s: string): (r: seq<string>)
    ensures forall k :: 0 <= k < |r| ==> r[k] != [] && forall i :: 0 <= i < |r[k]| ==> IsWordChar(r[k][i])
    ensures |s| >= 2 && s[0] == '@' && IsWordChar(s[1]) ==> |r| > 0 && r[0] == WordRun(s[1..])
    decreases |s|
  {
    if |s| < 2 then []
    else if s[0] == '@' && IsWordChar(s[1]) then
      var w := WordRun(s[1..]);
      [w] + Mentions(s[1 + |w|..])
    else Mentions(s[1..])
  }

  /** Every mention is written in the text right after an `@`. */
  lemma {:induction false} MentionsSound(s: string)
    ensures forall k :: 0 <= k < |Mentions(s)| ==> Contains(s, "@" + Mentions(s)[k])
    decreases |s|
  {
    if |s| >= 2 {
      if s[0] == '@' && IsWordChar(s[1]) {
        var w := WordRun(s[1..]);
        var rest := s[1 + |w|..];
        MentionsSound(rest);
        assert "@" + w <= s[0..];
        forall k | 0 <= k < |Mentions(rest)|
          ensures Contains(s, "@" + Mentions(rest)[k])
        {
          ContainsInSuffix(s, 1 + |w|, "@" + Mentions(rest)[k]);
        }
      } else {
        MentionsSound(s[1..]);
        forall k | 0 <= k < |Mentions(s[1..])|
          ensures Contains(s, "@" + Mentions(s[1..])[k])
        {
          ContainsInSuffix(s, 1, "@" + Mentions(s[1..])[k]);
        }
      }
    }
  }

  /** Some mention is found exactly when the text has an `@` directly followed
      by a word character somewhere. */
  lemma {:induction false} MentionsComplete(s: string)
    ensures Mentions(s) == [] <==> !exists i :: 0 <= i < |s| - 1 && s[i] == '@' && IsWordChar(s[i + 1])
    decreases |s|
  {
    if |s| >= 2 && !(s[0] == '@' && IsWordChar(s[1])) {
      var t := s[1..];
      MentionsComplete(t);
      if exists i :: 0 <= i < |s| - 1 && s[i] == '@' && IsWordChar(s[i + 1]) {
        var i :| 0 <= i < |s| - 1 && s[i] == '@' && IsWordChar(s[i + 1]);
        assert t[i - 1] == s[i] && t[i] == s[i + 1];
      }
      if exists j :: 0 <= j < |t| - 1 && t[j] == '@' && IsWordChar(t[j + 1]) {
        var j :| 0 <= j < |t| - 1 && t[j] == '@' && IsWordChar(t[j + 1]);
        assert s[j + 1] == t[j] && s[j + 2] == t[j + 1];
      }
    }
  }

  /** The tokens of a text cut after a character that is neither `@` nor a
      word character are the tokens of each part: `/@(\w+)/g` keeps scanning
      after every match, so every `@word` of the text yields its own token. */
  lemma {:induction false} MentionsAppend(a: string, b: string)
    requires a == [] || (!IsWordChar(a[|a| - 1]) && a[|a| - 1] != '@')
    ensures Mentions(a + b) == Mentions(a) + Mentions(b)
    decreases |a|, 1
  {
    if a == [] {
      assert a + b == b;
    } else if |a| == 1 {
      if b != [] {
        assert (a + b)[1..] == b;
      } else {
        assert a + b == a;
      }
    } else if a[0] == '@' && IsWordChar(a[1]) {
      MentionsAppendAtToken(a, b);
    } else {
      MentionsAppendSkipping(a, b);
    }
  }

  /** MentionsAppend when `a` starts with a token: the token's run ends inside `a`. */
  lemma {:induction false} MentionsAppendAtToken(a: string, b: string)
    requires |a| >= 2 && a[0] == '@' && IsWordChar(a[1])
    requires !IsWordChar(a[|a| - 1]) && a[|a| - 1] != '@'
    ensures Mentions(a + b) == Mentions(a) + Mentions(b)
    decreases |a|, 0
  {
    var w, rest := MentionsHeadAppend(a, b);
    MentionsAtToken(a);
    MentionsAppend(rest, b);
    ConsAppend(w, Mentions(rest), Mentions(b));
  }

  lemma ConsAppend(w: string, x: seq<string>, y: seq<string>)
    ensures [w] + (x + y) == ([w] + x) + y
  { }

  /** The first token of `a + b` is the first token of `a`, which ends inside `a`. */
  lemma MentionsHeadAppend(a: string, b: string) returns (w: string, rest: string)
    requires |a| >= 2 && a[0] == '@' && IsWordChar(a[1])
    requires !IsWordChar(a[|a| - 1]) && a[|a| - 1] != '@'
    ensures w == WordRun(a[1..]) && |w| < |a| - 1 && rest == a[1 + |w|..]
    ensures rest != [] && !IsWordChar(rest[|rest| - 1]) && rest[|rest| - 1] != '@'
    ensures Mentions(a + b) == [w] + Mentions(rest + b)
  {
    WordRunAppend(a[1..], b);
    w := WordRun(a[1..]);
    rest := a[1 + |w|..];
    assert (a + b)[1..] == a[1..] + b;
    assert (a + b)[1 + |w|..] == rest + b;
    MentionsAtToken(a + b);
  }

  /** One step of the scan at a token. */
  lemma MentionsAtToken(s: string)
    requires |s| >= 2 && s[0] == '@' && IsWordChar(s[1])
    ensures Mentions(s) == [WordRun(s[1..])] + Mentions(s[1 + |WordRun(s[1..])|..])
  {
  }

  /** MentionsAppend when `a` does not start with a token: both scans skip its first character. */
  lemma {:induction false} MentionsAppendSkipping(a: string, b: string)
    requires |a| >= 2 && !(a[0] == '@' && IsWordChar(a[1]))
    requires !IsWordChar(a[|a| - 1]) && a[|a| - 1] != '@'
    ensures Mentions(a + b) == Mentions(a) + Mentions(b)
    decreases |a|, 0
  {
    var rest := a[1..];
    assert (a + b)[1..] == rest + b;
    assert rest[|rest| - 1] == a[|a| - 1];
    MentionsAppend(rest, b);
  }

  /** A word run stops inside a text that ends with a non-word character. */
  lemma {:induction false} WordRunAppend(x: string, y: string)
    requires x != [] && !IsWordChar(x[|x| - 1])
    ensures |WordRun(x)| < |x|
    ensures WordRun(x + y) == WordRun(x)
    decreases |x|
  {
    if IsWordChar(x[0]) {
      assert (x + y)[1..] == x[1..] + y;
      WordRunAppend(x[1..], y);
    }
  }

  lemma ContainsInSuffix(s: string, n: nat, sub: string)
    requires n <= |s| && Contains(s[n..], sub)
    ensures Contains(s, sub)
  {
    var i :| 0 <= i <= |s[n..]| - |sub| && sub <= s[n..][i..];
    assert s[n..][i..] == s[n + i..];
  }

  /** Text without an `@` mentions nobody, so it can be skipped. */
  lemma {:induction false} MentionsSkip(p: string, rest: string)
    requires '@' !in p
    ensures Mentions(p + rest) == Mentions(rest)
    decreases |p|
  {
    if p != [] {
      assert (p + rest)[0] == p[0];
      assert (p + rest)[1..] == p[1..] + rest;
      MentionsSkip(p[1..], rest);
    } else {
      assert p + rest == rest;
    }
  }

  /** A member of the project as the dialog receives it. */
  datatype MemberUser = MemberUser(id: DocId, name: string)

  /** `projectMembers.find(m => m.user.name.toLowerCase() === token.toLowerCase())`. */
  function MemberNamed(members: seq<MemberUser>, token: string): Option<MemberUser>
  {
    Find(members, (m: MemberUser) => Lower(m.name) == Lower(token))
  }

  /** The member names announced for a list of mention tokens, in token order. */
  function MentionedNames(members: seq<MemberUser>, tokens: seq<string>): seq<string>
    decreases |tokens|
  {
    if tokens == [] then []
    else
      var last := MemberNamed(members, tokens[|tokens| - 1]);
      MentionedNames(members, tokens[..|tokens| - 1]) + (if last.Some? then [last.value.name] else [])
  }

  /** Each announced name is a member's whose lower-cased name equals some
      token's; a token matching no member announces nothing. */
  lemma {:induction false} MentionedNamesSound(members: seq<MemberUser>, tokens: seq<string>)
    ensures |MentionedNames(members, tokens)| <= |tokens|
    ensures forall n :: n in MentionedNames(members, tokens) ==>
      exists m, t :: m in members && t in tokens && m.name == n && Lower(n) == Lower(t)
    ensures (forall t, m :: t in tokens && m in members ==> Lower(m.name) != Lower(t)) ==> MentionedNames(members, tokens) == []
    decreases |tokens|
  {
    if tokens != [] {
      var init := tokens[..|tokens| - 1];
      var t := tokens[|tokens| - 1];
      MentionedNamesSound(members, init);
      forall n | n in MentionedNames(members, tokens)
        ensures exists m, t :: m in members && t in tokens && m.name == n && Lower(n) == Lower(t)
      {
        if n in MentionedNames(members, init) {
          var m, u :| m in members && u in init && m.name == n && Lower(n) == Lower(u);
          assert u in tokens;
        } else {
          var m := MemberNamed(members, t).value;
          assert m in members && m.name == n && t in tokens;
        }
      }
      if forall t, m :: t in tokens && m in members ==> Lower(m.name) != Lower(t) {
        assert forall t, m :: t in init && m in members ==> Lower(m.name) != Lower(t);
      }
    }
  }

  /** The mention `forEach` of `handleAddComment`: the names it announces. */
  method MentionToasts(members: seq<MemberUser>, text: string) returns (names: seq<string>)
    ensures names == MentionedNames(members, Mentions(text))
  {
    var mentions := Mentions(text);
    names := [];
    var k := 0;
    while k < |mentions|
      invariant 0 <= k <= |mentions|
      invariant names == MentionedNames(members, mentions[..k])
    {
      var member := MemberNamed(members, mentions[k]);
      if member.Some? {
        names := names + [member.value.name];
      }
      assert mentions[..k + 1][..k] == mentions[..k];
      k := k + 1;
    }
    assert mentions[..k] == mentions;
  }

  // ---------------------------------------------------------------------------
  // Suggestions while typing a mention

  /** The suggestion list: shown only when the text has an `@`; the members
      whose lower-cased name contains the lower-cased piece after the first
      `@` (up to a second one). */
  function Suggestions(members: seq<MemberUser>, text: string): (r: Option<seq<MemberUser>>)
    ensures r.None? <==> '@' !in text
    ensures r.Some? ==> forall m :: m in r.value <==> m in members && Contains(Lower(m.name), Lower(SecondPiece(text, '@').value))
  {
    match SecondPiece(text, '@')
    case None => None
    case Some(piece) => Some(Filter(members, (m: MemberUser) => Contains(Lower(m.name), Lower(piece))))
  }

  /** Right after typing `@` every member is offered. */
  lemma BareAtOffersEveryone(members: seq<MemberUser>, before: string)
    requires '@' !in before
    ensures Suggestions(members, before + "@") == Some(members)
  {
    var text := before + "@";
    assert BeforeFirst(text, '@') == before by {
      assert text[|before|] == '@';
      assert forall i :: 0 <= i < |before| ==> text[i] == before[i] && text[i] != '@';
    }
    assert SecondPiece(text, '@') == Some("");
    forall m: MemberUser
      ensures Contains(Lower(m.name), Lower(""))
    {
      ContainsEmpty(Lower(m.name));
    }
    FilterAll(members, (m: MemberUser) => Contains(Lower(m.name), Lower("")));
  }

  /** Picking a suggestion: the text before the first `@`, then `@`, the
      member's name and a space. */
  function Complete(text: string, name: string): string
  {
    BeforeFirst(text, '@') + "@" + name + " "
  }

  /** Picking a member whose name is a single word makes it the comment's one
      mention, whatever was typed before the `@`. */
  lemma CompletionMentionsMember(text: string, name: string)
    requires name != [] && forall i :: 0 <= i < |name| ==> IsWordChar(name[i])
    ensures Mentions(Complete(text, name)) == [name]
  {
    var tail := "@" + name + " ";
    assert Complete(text, name) == BeforeFirst(text, '@') + tail;
    MentionsSkip(BeforeFirst(text, '@'), tail);
    assert tail[1..] == name + " ";
    WordRunWhole(name, " ");
    assert tail[1 + |name|..] == " ";
  }

  lemma {:induction false} WordRunWhole(w: string, rest: string)
    requires forall i :: 0 <= i < |w| ==> IsWordChar(w[i])
    requires rest == [] || !IsWordChar(rest[0])
    ensures WordRun(w + rest) == w
    decreases |w|
  {
    if w == [] {
      assert w + rest == rest;
    } else {
      assert (w + rest)[1..] == w[1..] + rest;
      WordRunWhole(w[1..], rest);
    }
  }
}

/** The auto-save sessions of `setupAutoSave` (existing notes) and
    `createNewNote` (drafts): every input restarts a debounce timer, and when
    the timer fires the card's current title is trimmed; a blank title
    issues nothing, an uncreated draft issues `create`, anything else issues
    `update`. */
module AutoSave {
  import opened Wrappers
  import opened Notes
  import opened Text

  // ---- Debounce timing ----

  /** The times at which saves fire for inputs arriving at `inputs` (in time
      order): the save an input schedules fires `delay` later unless the
      next input arrives before that. */
  function Fired(inputs: seq<int>, delay: nat): seq<int>
    decreases |inputs|
  {
    if |inputs| == 0 then []
    else if |inputs| == 1 then [inputs[0] + delay]
    else (if inputs[1] >= inputs[0] + delay then [inputs[0] + delay] else []) + Fired(inputs[1..], delay)
  }

  /** An input at time `t`: a save already due by `t` has fired; then
      `clearTimeout` and `setTimeout(save, delay)` re-arm the timer. */
  function Arm(timer: Timer, fired: seq<int>, t: int, delay: nat): (Timer, seq<int>) {
    (Pending(t + delay),
     if timer.Pending? && timer.deadline <= t then fired + [timer.deadline] else fired)
  }

  /** After the last input the pending save fires. */
  function Flush(timer: Timer, fired: seq<int>): seq<int> {
    if timer.Pending? then fired + [timer.deadline] else fired
  }

  /** The timer driven through a sequence of inputs, then left to fire. */
  function Run(timer: Timer, fired: seq<int>, inputs: seq<int>, delay: nat): (r: seq<int>)
    ensures |fired| <= |r| && r[..|fired|] == fired
    ensures |r| <= |fired| + |inputs| + (if timer.Pending? then 1 else 0)
    ensures inputs != [] || timer.Pending? ==> |fired| < |r|
    decreases |inputs|
  {
    if inputs == [] then Flush(timer, fired)
    else
      var next := Arm(timer, fired, inputs[0], delay);
      Run(next.0, next.1, inputs[1..], delay)
  }

  lemma {:induction false} RunFrom(prev: int, fired: seq<int>, inputs: seq<int>, delay: nat)
    ensures Run(Pending(prev + delay), fired, inputs, delay) == fired + Fired([prev] + inputs, delay)
    decreases |inputs|
  {
    if inputs == [] {
    } else {
      var t := inputs[0];
      var f' := if prev + delay <= t then fired + [prev + delay] else fired;
      RunFrom(t, f', inputs[1..], delay);
      assert [t] + inputs[1..] == inputs;
      assert ([prev] + inputs)[1..] == inputs;
    }
  }

  /** Clearing and re-arming the timer on every input fires exactly the
      saves of the declarative description. */
  lemma RunMatchesFired(inputs: seq<int>, delay: nat)
    ensures Run(Idle, [], inputs, delay) == Fired(inputs, delay)
  {
    if inputs != [] {
      RunFrom(inputs[0], [], inputs[1..], delay);
      assert [inputs[0]] + inputs[1..] == inputs;
    }
  }

  /** Inputs each closer than `delay` to the one before lead to a single save,
      `delay` after the last of them. */
  lemma {:induction false} BurstFiresOnce(inputs: seq<int>, delay: nat)
    requires |inputs| > 0
    requires forall k :: 0 <= k < |inputs| - 1 ==> inputs[k + 1] < inputs[k] + delay
    ensures Fired(inputs, delay) == [inputs[|inputs| - 1] + delay]
    decreases |inputs|
  {
    if |inputs| > 1 {
      BurstFiresOnce(inputs[1..], delay);
    }
  }

  /** Two bursts separated by at least `delay` fire separately. */
  lemma {:induction false} QuietGapSplits(a: seq<int>, b: seq<int>, delay: nat)
    requires |a| > 0 && |b| > 0
    requires b[0] >= a[|a| - 1] + delay
    ensures Fired(a + b, delay) == Fired(a, delay) + Fired(b, delay)
    decreases |a|
  {
    if |a| == 1 {
      assert (a + b)[1..] == b;
    } else {
      assert (a + b)[1..] == a[1..] + b;
      QuietGapSplits(a[1..], b, delay);
    }
  }

  // ---- One firing of a card's timer ----

  /** What a firing does: the card afterwards, the remote call issued (if
      any) and the toast raised (if any). */
  datatype Outcome = Outcome(card: Card, call: Option<Call>, toast: Option<Toast>)

  /** The card's timer fires and the store answers `ok` (and, to a `create`,
      the id `newId`). The title and content are read at this moment. */
  function Fire(c: Card, ok: bool, newId: Id): (o: Outcome)
    requires WellFormed(c)
    ensures WellFormed(o.card) && o.card.timer == Idle
    ensures o.card.title == c.title && o.card.content == c.content
    ensures o.card.pinned == c.pinned && o.card.glyph == c.glyph && o.card.visible == c.visible
    ensures o.call.None? <==> Trim(c.title) == []
    ensures o.call.None? ==> o.toast.None? && o.card == c.(timer := Idle)
    ensures o.call.Some? ==> (o.toast.None? <==> ok) && (!ok ==> o.toast == Some(SaveFailed))
  {
    var title := Trim(c.title);
    var idle := c.(timer := Idle);
    if title == [] then Outcome(idle, None, None)
    else match c.kind
      case Draft(created) =>
        if created then
          Outcome(idle, Some(Update(c.id.value, c.content, title)), if ok then None else Some(SaveFailed))
        else if ok then
          Outcome(idle.(id := Some(newId), kind := Draft(true)), Some(Create(title, c.content)), None)
        else
          Outcome(idle, Some(Create(title, c.content)), Some(SaveFailed))
      case Loaded =>
        Outcome(idle, Some(Update(c.id.value, c.content, title)), if ok then None else Some(SaveFailed))
  }

  /** The call a firing issues is built from the values read at that
      moment: `create` for a draft not yet created, `update` of the card's
      id for every other card, with the trimmed title in both. */
  lemma FireCall(c: Card, ok: bool, newId: Id)
    requires WellFormed(c) && Trim(c.title) != []
    ensures c.kind == Draft(false) ==> Fire(c, ok, newId).call == Some(Create(Trim(c.title), c.content))
    ensures c.kind != Draft(false) ==> Fire(c, ok, newId).call == Some(Update(c.id.value, c.content, Trim(c.title)))
  {
  }

  /** Only a successful `create` changes a card's kind or id: the draft
      becomes created and takes the id the store returned. */
  lemma FireBindsIdOnCreate(c: Card, ok: bool, newId: Id)
    requires WellFormed(c)
    ensures var o := Fire(c, ok, newId);
            o.card.kind != c.kind || o.card.id != c.id ==>
              c.kind == Draft(false) && o.call.Some? && ok
              && o.card.kind == Draft(true) && o.card.id == Some(newId)
    ensures var o := Fire(c, ok, newId);
            c.kind == Draft(false) && Trim(c.title) != [] && ok ==>
              o.card.kind == Draft(true) && o.card.id == Some(newId)
  {
  }

  /** An input on the title or the textarea at time `now`: the fields take
      the new values and the timer restarts. */
  function Edit(c: Card, title: string, content: string, now: int): (c': Card)
    ensures c'.timer == Pending(now + Delay(c.kind))
    ensures c' == c.(title := title, content := content, timer := c'.timer)
  {
    c.(title := title, content := content, timer := Pending(now + Delay(c.kind)))
  }

  // ---- A whole session ----

  /** What happens to one card: an input, or the pending timer firing with
      the store's answer. */
  datatype Event = Input(title: string, content: string, now: int) | Elapse(ok: bool, newId: Id)

  /** One event on a card: the card afterwards and the calls it issued. An
      `Elapse` with no timer pending does nothing. */
  function Step(c: Card, e: Event): (r: (Card, seq<Call>))
    requires WellFormed(c)
    ensures WellFormed(r.0) && |r.1| <= 1
  {
    match e
    case Input(t, x, now) => (Edit(c, t, x, now), [])
    case Elapse(ok, newId) =>
      if c.timer.Idle? then (c, [])
      else
        var o := Fire(c, ok, newId);
        (o.card, if o.call.Some? then [o.call.value] else [])
  }

  /** The card after `events`, and the remote calls they issued, in order. */
  function Session(c: Card, events: seq<Event>): (r: (Card, seq<Call>))
    requires WellFormed(c)
    ensures WellFormed(r.0)
    decreases |events|
  {
    if events == [] then (c, [])
    else
      var first := Step(c, events[0]);
      var rest := Session(first.0, events[1..]);
      (rest.0, first.1 + rest.1)
  }

  /** Every call in `calls` is an `update` of note `id`. */
  predicate UpdatesOf(calls: seq<Call>, id: Id) {
    forall k :: 0 <= k < |calls| ==> calls[k].Update? && calls[k].id == id
  }

  /** Once a draft is created it stays created with the same id, and every
      later firing goes to `update`, never to `create`. */
  lemma {:induction false} CreatedNeverCreates(c: Card, events: seq<Event>)
    requires WellFormed(c) && c.kind == Draft(true)
    ensures Session(c, events).0.kind == Draft(true) && Session(c, events).0.id == c.id
    ensures UpdatesOf(Session(c, events).1, c.id.value)
    decreases |events|
  {
    if events != [] {
      var first := Step(c, events[0]);
      StepKeepsId(c, events[0]);
      CreatedNeverCreates(first.0, events[1..]);
      UpdatesOfAppend(first.1, Session(first.0, events[1..]).1, c.id.value);
    }
  }

  /** A loaded card keeps its id, and every save it issues is an `update` of
      that id. */
  lemma {:induction false} LoadedOnlyUpdates(c: Card, events: seq<Event>)
    requires WellFormed(c) && c.kind == Loaded
    ensures Session(c, events).0.kind == Loaded && Session(c, events).0.id == c.id
    ensures UpdatesOf(Session(c, events).1, c.id.value)
    decreases |events|
  {
    if events != [] {
      var first := Step(c, events[0]);
      StepKeepsId(c, events[0]);
      LoadedOnlyUpdates(first.0, events[1..]);
      UpdatesOfAppend(first.1, Session(first.0, events[1..]).1, c.id.value);
    }
  }

  /** One event on a card that already has a note in the store keeps its
      kind and id, and issues at most an `update` of that id. */
  lemma StepKeepsId(c: Card, e: Event)
    requires WellFormed(c) && (c.kind == Loaded || c.kind == Draft(true))
    ensures Step(c, e).0.kind == c.kind && Step(c, e).0.id == c.id
    ensures UpdatesOf(Step(c, e).1, c.id.value)
  {
    if e.Elapse? && c.timer.Pending? {
      FireBindsIdOnCreate(c, e.ok, e.newId);
      if Trim(c.title) != [] {
        FireCall(c, e.ok, e.newId);
      }
    }
  }

  lemma UpdatesOfAppend(a: seq<Call>, b: seq<Call>, id: Id)
    requires UpdatesOf(a, id) && UpdatesOf(b, id)
    ensures UpdatesOf(a + b, id)
  {
  }

  /** Every firing among `events` meets a store failure. */
  predicate AllFail(events: seq<Event>) {
    forall k :: 0 <= k < |events| ==> events[k].Input? || !events[k].ok
  }

  /** Every call in `calls` is a `create`. */
  predicate CreatesOnly(calls: seq<Call>) {
    forall k :: 0 <= k < |calls| ==> calls[k].Create?
  }

  /** A draft whose `create` calls have all failed is still uncreated, has no
      id, and has issued nothing but `create`. */
  lemma {:induction false} FailedCreatesLeaveDraft(c: Card, events: seq<Event>)
    requires WellFormed(c) && c.kind == Draft(false) && AllFail(events)
    ensures Session(c, events).0.kind == Draft(false) && Session(c, events).0.id.None?
    ensures CreatesOnly(Session(c, events).1)
    decreases |events|
  {
    if events != [] {
      var first := Step(c, events[0]);
      StepKeepsUncreated(c, events[0]);
      assert AllFail(events[1..]) by {
        forall k | 0 <= k < |events[1..]| ensures events[1..][k].Input? || !events[1..][k].ok {
          assert events[1..][k] == events[k + 1];
        }
      }
      FailedCreatesLeaveDraft(first.0, events[1..]);
      var rest := Session(first.0, events[1..]);
      assert Session(c, events).1 == first.1 + rest.1;
    }
  }

  lemma StepKeepsUncreated(c: Card, e: Event)
    requires WellFormed(c) && c.kind == Draft(false) && (e.Input? || !e.ok)
    ensures Step(c, e).0.kind == Draft(false) && Step(c, e).0.id.None?
    ensures CreatesOnly(Step(c, e).1)
  {
    if e.Elapse? && c.timer.Pending? {
      FireBindsIdOnCreate(c, e.ok, e.newId);
      if Trim(c.title) != [] {
        FireCall(c, e.ok, e.newId);
      }
    }
  }

  /** The calls a firing issues when the title and content read are
      `title` and `content`. */
  function SaveCalls(c: Card, title: string, content: string): seq<Call>
    requires WellFormed(c)
  {
    if Trim(title) == [] then []
    else if c.kind == Draft(false) then [Create(Trim(title), content)]
    else [Update(c.id.value, content, Trim(title))]
  }

  lemma FireAfterInput(c: Card, e: Event, ok: bool, newId: Id)
    requires WellFormed(c) && e.Input?
    ensures Session(c, [e, Elapse(ok, newId)]).1 == SaveCalls(c, e.title, e.content)
  {
    var c' := Edit(c, e.title, e.content, e.now);
    assert [e, Elapse(ok, newId)] == [e] + [Elapse(ok, newId)];
    InputFirst(c, e, [Elapse(ok, newId)]);
    SingleEvent(c', Elapse(ok, newId));
    assert c'.kind == c.kind && c'.id == c.id && c'.timer.Pending?;
    assert c'.title == e.title && c'.content == e.content;
    var o := Fire(c', ok, newId);
    if Trim(e.title) != [] {
      FireCall(c', ok, newId);
    }
    assert Step(c', Elapse(ok, newId)).1 == (if o.call.Some? then [o.call.value] else []);
  }

  lemma SingleEvent(c: Card, e: Event)
    requires WellFormed(c)
    ensures Session(c, [e]) == Step(c, e)
  {
    assert [e][1..] == [];
    assert Step(c, e).1 + [] == Step(c, e).1;
  }

  /** A session that starts with an input continues from the edited card
      with nothing issued yet. */
  lemma InputFirst(c: Card, e: Event, rest: seq<Event>)
    requires WellFormed(c) && e.Input?
    ensures Session(c, [e] + rest).1 == Session(Edit(c, e.title, e.content, e.now), rest).1
  {
    assert ([e] + rest)[0] == e && ([e] + rest)[1..] == rest;
  }

  /** A burst of inputs followed by one firing issues at most one call: the
      one the last input's values call for, `create` or `update` with the
      trimmed title, or nothing when that title is blank. */
  lemma {:induction false} BurstSavesLastValues(c: Card, inputs: seq<Event>, ok: bool, newId: Id)
    requires WellFormed(c) && |inputs| > 0
    requires forall k :: 0 <= k < |inputs| ==> inputs[k].Input?
    ensures Session(c, inputs + [Elapse(ok, newId)]).1
              == SaveCalls(c, inputs[|inputs| - 1].title, inputs[|inputs| - 1].content)
    decreases |inputs|
  {
    var e, fire := inputs[0], Elapse(ok, newId);
    if |inputs| == 1 {
      assert inputs + [fire] == [e, fire];
      FireAfterInput(c, e, ok, newId);
    } else {
      var c' := Edit(c, e.title, e.content, e.now);
      assert inputs + [fire] == [e] + (inputs[1..] + [fire]);
      InputFirst(c, e, inputs[1..] + [fire]);
      BurstSavesLastValues(c', inputs[1..], ok, newId);
      assert inputs[1..][|inputs[1..]| - 1] == inputs[|inputs| - 1];
      assert c'.kind == c.kind && c'.id == c.id;
    }
  }

  /** Running two event sequences one after the other is running their
      concatenation. */
  lemma {:induction false} SessionAppend(c: Card, a: seq<Event>, b: seq<Event>)
    requires WellFormed(c)
    ensures var first := Session(c, a);
            Session(c, a + b) == (Session(first.0, b).0, first.1 + Session(first.0, b).1)
    decreases |a|
  {
    if a == [] {
      assert a + b == b;
      var calls := Session(c, b).1;
      assert [] + calls == calls;
    } else {
      assert (a + b)[0] == a[0] && (a + b)[1..] == a[1..] + b;
      var step := Step(c, a[0]);
      SessionAppend(step.0, a[1..], b);
      var mid := Session(step.0, a[1..]);
      assert step.1 + (mid.1 + Session(mid.0, b).1) == (step.1 + mid.1) + Session(mid.0, b).1;
    }
  }

  /** The first save of an uncreated draft with a non-blank title creates
      the note and leaves the draft created, bound to the returned id. */
  lemma FirstSaveCreates(c: Card, title: string, content: string, t: int, id: Id)
    requires WellFormed(c) && c.kind == Draft(false) && Trim(title) != []
    ensures var r := Session(c, [Input(title, content, t), Elapse(true, id)]);
            r.1 == [Create(Trim(title), content)] && r.0.kind == Draft(true) && r.0.id == Some(id)
  {
    var e1, e2 := Input(title, content, t), Elapse(true, id);
    var c1 := Edit(c, title, content, t);
    FireAfterInput(c, e1, true, id);
    FireBindsIdOnCreate(c1, true, id);
    assert [e1, e2][0] == e1 && [e1, e2][1..] == [e2];
    SingleEvent(c1, e2);
  }

  /** Once a draft is created, an input followed by a firing updates its
      id with the values of that input. */
  lemma CreatedSavesUpdate(c: Card, title: string, content: string, t: int, ok: bool, newId: Id)
    requires WellFormed(c) && c.kind == Draft(true) && Trim(title) != []
    ensures Session(c, [Input(title, content, t), Elapse(ok, newId)]).1 == [Update(c.id.value, content, Trim(title))]
  {
    FireAfterInput(c, Input(title, content, t), ok, newId);
  }

  lemma AppendCalls(c: Card, a: seq<Event>, b: seq<Event>, x: seq<Call>, y: seq<Call>)
    requires WellFormed(c) && Session(c, a).1 == x && Session(Session(c, a).0, b).1 == y
    ensures Session(c, a + b).1 == x + y
  {
    SessionAppend(c, a, b);
  }

  /** A draft's life: the first firing creates the note and binds the id
      the store returns; a later firing updates that id with the values
      read then. */
  lemma CreateThenUpdate(c: Card, title: string, content: string, title': string, content': string,
                         t: int, t': int, id: Id, ok: bool, newId: Id)
    requires WellFormed(c) && c.kind == Draft(false)
    requires Trim(title) != [] && Trim(title') != []
    ensures Session(c, [Input(title, content, t), Elapse(true, id)] + [Input(title', content', t'), Elapse(ok, newId)]).1
              == [Create(Trim(title), content), Update(id, content', Trim(title'))]
  {
    var a := [Input(title, content, t), Elapse(true, id)];
    var b := [Input(title', content', t'), Elapse(ok, newId)];
    FirstSaveCreates(c, title, content, t, id);
    CreatedSavesUpdate(Session(c, a).0, title', content', t', ok, newId);
    AppendCalls(c, a, b, [Create(Trim(title), content)], [Update(id, content', Trim(title'))]);
  }
}

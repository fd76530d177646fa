/**
 * The upload button: its icon, `setIcon`, and the click handler
 * `buttonClickHandler` read as a transition system. The host page, the file
 * picker, the file reader and the network are inputs: each event below is
 * one of their answers arriving.
 */
module ButtonMachine {
  import opened Wrappers
  import opened TextInsert
  import opened SiteSyntax
  import opened Upload

  // ---------------------------------------------------------------------------
  // Icon

  datatype IconState = Idle | Loading | Error

  /** `setIcon`: the Font Awesome classes of the glyph shown for each state. */
  function IconClasses(state: IconState): (r: string)
    ensures |r| > 6 && r[..6] == "fa fa-"
  {
    match state
    case Idle => "fa fa-file-upload"
    case Loading => "fa fa-spinner fa-pulse"
    case Error => "fa fa-exclamation-triangle"
  }

  /** Each state shows its own glyph. */
  lemma IconClassesDistinct(s: IconState, t: IconState)
    ensures IconClasses(s) == IconClasses(t) <==> s == t
  {
    if s != t {
      assert IconClasses(s)[6] != IconClasses(t)[6];
    }
  }

  // ---------------------------------------------------------------------------
  // Button and handler state

  /** The button as the page shows it: glyph, `disabled` attribute, `danger` class. */
  datatype Button = Button(icon: IconState, disabled: bool, danger: bool)

  /** A button as the toolbar hook creates it. */
  const NewButton := Button(Idle, false, false)

  /** The image the picker returned; only its name is read. */
  datatype File = File(name: string)

  /** What one upload sends: the payload (`None` is `undefined`) and the file name. */
  datatype UploadRequest = UploadRequest(image: Option<string>, name: string)

  /** Where the click handler is waiting, if a click is being handled. */
  datatype Phase =
    | Waiting                   // no click being handled
    | Picking                   // awaiting `getFile`
    | Reading(file: File)       // awaiting `getBase64`
    | Uploading(file: File)     // awaiting `uploadFile`
    | Hung                      // awaiting a promise that can no longer settle

  /** Which build of the script runs: the user script looks the host up; the TypeScript source always writes Textile. */
  datatype Variant = UserScript(host: string) | TypeScriptSource

  datatype Machine = Machine(
    button: Button,
    phase: Phase,
    field: TextField,            // the comment box the toolbar belongs to
    requests: seq<UploadRequest>, // uploads sent, in order
    raised: seq<string>)          // errors the handler re-threw, in order

  /** The answers the handler awaits, clicks, and the user editing the comment box. */
  datatype Event =
    | Click
    | PickerClosed(chosen: Option<File>)
    | FileRead(dataUrl: string)
    | UploadReplied(reply: Reply)
    | Edited(edited: TextField)   // typing or moving the caret: the box's new value and selection

  function Init(field: TextField): Machine
  {
    Machine(NewButton, Waiting, field, [], [])
  }

  /** The markup inserted for an uploaded link, or the error thrown while making it. */
  function Embed(variant: Variant, link: string): (r: Result<string, string>)
    ensures variant.TypeScriptSource? ==> r == Success(WrapLink(Textile, link))
    ensures variant.UserScript? && variant.host in SyntaxByHost ==>
              r == Success(WrapLink(SyntaxByHost[variant.host], link))
    ensures variant.UserScript? && variant.host !in SyntaxByHost ==> r == Failure(DomainError)
  {
    match variant
    case UserScript(host) => WrapLinkForHost(host, link)
    case TypeScriptSource => Success("!" + link + "!")
  }

  /** The `catch` block: add `danger`, show the error glyph, re-throw; `disabled` stays as it was. */
  function Fail(m: Machine, error: string): Machine
  {
    m.(button := m.button.(icon := Error, danger := true), phase := Waiting, raised := m.raised + [error])
  }

  /**
   * The rest of the `try` block once the upload promise settles: wrap the
   * link, insert it, and show the idle glyph on an enabled button again.
   */
  function Settle(variant: Variant, m: Machine, reply: Reply): (r: Machine)
    requires m.field.Valid()
    ensures r.field.Valid()
  {
    match UploadFile(reply)
    case None => m.(phase := Hung)
    case Some(Failure(error)) => Fail(m, error)
    case Some(Success(link)) =>
      match Embed(variant, link)
      case Failure(error) => Fail(m, error)
      case Success(text) =>
        m.(field := InsertString(text, m.field), button := m.button.(icon := Idle, disabled := false), phase := Waiting)
  }

  /**
   * One event. The user may edit the comment box at any time, whatever the
   * handler awaits; an event the handler is not awaiting changes nothing; a
   * disabled button takes no clicks.
   */
  function Step(variant: Variant, m: Machine, e: Event): (r: Machine)
    requires m.field.Valid()
    ensures r.field.Valid()
    ensures m.requests <= r.requests && |r.requests| <= |m.requests| + 1
    ensures m.raised <= r.raised && |r.raised| <= |m.raised| + 1
  {
    match (m.phase, e)
    case (_, Edited(edited)) =>
      if edited.Valid() then m.(field := edited) else m
    case (Waiting, Click) =>
      if m.button.disabled then m else m.(phase := Picking)
    case (Picking, PickerClosed(chosen)) =>
      if chosen.None? then m.(phase := Waiting)
      else m.(button := m.button.(icon := Loading, disabled := true), phase := Reading(chosen.value))
    case (Reading(file), FileRead(dataUrl)) =>
      m.(phase := Uploading(file), requests := m.requests + [UploadRequest(Base64Payload(dataUrl), file.name)])
    case (Uploading(_), UploadReplied(reply)) => Settle(variant, m, reply)
    case _ => m
  }

  function Run(variant: Variant, m: Machine, events: seq<Event>): (r: Machine)
    requires m.field.Valid()
    ensures r.field.Valid()
    decreases |events|
  {
    if |events| == 0 then m else Run(variant, Step(variant, m, events[0]), events[1..])
  }

  // ---------------------------------------------------------------------------
  // Invariant

  const Ready := Button(Idle, false, false)
  const Busy := Button(Loading, true, false)
  const Broken := Button(Error, true, true)

  /** The states a button reaches, and how they tie to the handler's phase and its history. */
  predicate Inv(m: Machine)
  {
    && m.field.Valid()
    && (m.button == Ready || m.button == Busy || m.button == Broken)
    && (m.phase.Waiting? ==> m.button != Busy)
    && (m.phase.Picking? ==> m.button == Ready)
    && (m.phase.Reading? || m.phase.Uploading? || m.phase.Hung? ==> m.button == Busy)
    && (m.button == Broken <==> |m.raised| == 1)
    && |m.raised| <= 1
  }

  lemma InitInv(field: TextField)
    requires field.Valid()
    ensures Inv(Init(field))
  {
  }

  lemma StepInv(variant: Variant, m: Machine, e: Event)
    requires Inv(m)
    ensures Inv(Step(variant, m, e))
  {
  }

  lemma {:induction false} RunInv(variant: Variant, m: Machine, events: seq<Event>)
    requires Inv(m)
    ensures Inv(Run(variant, m, events))
    decreases |events|
  {
    if |events| > 0 {
      StepInv(variant, m, events[0]);
      RunInv(variant, Step(variant, m, events[0]), events[1..]);
    }
  }

  // ---------------------------------------------------------------------------
  // Transitions of one click

  /** A click on an enabled, idle button opens the picker and changes nothing else. */
  lemma ClickOpensPicker(variant: Variant, m: Machine)
    requires Inv(m) && m.phase.Waiting? && m.button == Ready
    ensures Step(variant, m, Click) == m.(phase := Picking)
  {
  }

  /** A cancelled picker ends the click: the button stays idle and enabled and nothing is sent. */
  lemma CancelChangesNothing(variant: Variant, m: Machine)
    requires Inv(m) && m.phase.Waiting? && m.button == Ready
    ensures Run(variant, m, [Click, PickerClosed(None)]) == m
  {
    assert [Click, PickerClosed(None)][1..] == [PickerClosed(None)];
  }

  /** Once a file is chosen the button shows the spinner and is disabled until the handler finishes. */
  lemma ChosenFileDisables(variant: Variant, m: Machine, file: File)
    requires Inv(m) && m.phase.Picking?
    ensures var r := Step(variant, m, PickerClosed(Some(file)));
            r.button == Busy && r.phase == Reading(file) && r.field == m.field && r.requests == m.requests
  {
  }

  /** Reading the file sends exactly one upload, carrying the data URL's payload and the file's name. */
  lemma ReadSendsOneUpload(variant: Variant, m: Machine, dataUrl: string)
    requires Inv(m) && m.phase.Reading?
    ensures var r := Step(variant, m, FileRead(dataUrl));
            && r.requests == m.requests + [UploadRequest(Base64Payload(dataUrl), m.phase.file.name)]
            && r.button == Busy && r.field == m.field
  {
  }

  /** A link that embeds cleanly is inserted into the comment box and the button is idle and enabled again. */
  lemma SuccessInsertsAndResets(variant: Variant, m: Machine, reply: Reply, link: string, text: string)
    requires Inv(m) && m.phase.Uploading?
    requires UploadFile(reply) == Some(Success(link)) && Embed(variant, link) == Success(text)
    ensures var r := Step(variant, m, UploadReplied(reply));
            && r.field == InsertString(text, m.field)
            && r.button == Ready && r.phase.Waiting?
            && r.raised == m.raised && r.requests == m.requests
  {
  }

  /**
   * A rejected upload, or a link the script cannot embed, leaves the button
   * showing the error glyph, marked `danger` and still disabled; the error is
   * re-thrown and the comment box is untouched.
   */
  lemma FailureBreaksButton(variant: Variant, m: Machine, reply: Reply, error: string)
    requires Inv(m) && m.phase.Uploading?
    requires UploadFile(reply) == Some(Failure(error))
             || (exists link :: UploadFile(reply) == Some(Success(link)) && Embed(variant, link) == Failure(error))
    ensures var r := Step(variant, m, UploadReplied(reply));
            && r.button == Broken && r.raised == [error]
            && r.field == m.field && r.requests == m.requests
  {
  }

  /**
   * Apart from the user's own edits, only a reply that ends the handler
   * successfully touches the comment box.
   */
  lemma FieldChangesOnlyOnSuccess(variant: Variant, m: Machine, e: Event)
    requires Inv(m)
    ensures var r := Step(variant, m, e);
            r.field != m.field ==> e == Edited(r.field) || (m.phase.Uploading? && e.UploadReplied? && r.button == Ready)
  {
  }

  /** An edit replaces the comment box in every phase and changes nothing else. */
  lemma EditReplacesField(variant: Variant, m: Machine, edited: TextField)
    requires Inv(m) && edited.Valid()
    ensures Step(variant, m, Edited(edited)) == m.(field := edited)
  {
  }

  /** The comment box after the user's edits among `events`, starting from `field`; edits that are not well-formed do not happen. */
  function Edits(field: TextField, events: seq<Event>): (r: TextField)
    requires field.Valid()
    ensures r.Valid()
    ensures r == field || exists i :: 0 <= i < |events| && events[i] == Edited(r)
    decreases |events|
  {
    if |events| == 0 then field
    else
      var next := if events[0].Edited? && events[0].edited.Valid() then events[0].edited else field;
      var r := Edits(next, events[1..]);
      assert r != next ==> exists i :: 0 <= i < |events| - 1 && events[1..][i] == Edited(r);
      r
  }

  /**
   * A reply whose `onload` throws before settling (no parsed body, or status
   * 200 without `data`) leaves the spinner up and the button disabled for
   * good; only the user's edits change the comment box afterwards.
   */
  lemma UnsettledReplyHangs(variant: Variant, m: Machine, reply: Reply, events: seq<Event>)
    requires Inv(m) && m.phase.Uploading? && NeverSettles(reply)
    ensures var r := Run(variant, Step(variant, m, UploadReplied(reply)), events);
            && r.button == Busy && r.requests == m.requests && r.raised == m.raised
            && r.field == Edits(m.field, events)
  {
    HungIsStuck(variant, Step(variant, m, UploadReplied(reply)), events);
  }

  /** A handler waiting on a promise that cannot settle ignores every later event but the user's edits. */
  lemma {:induction false} HungIsStuck(variant: Variant, m: Machine, events: seq<Event>)
    requires Inv(m) && m.phase.Hung?
    ensures Run(variant, m, events) == m.(field := Edits(m.field, events))
    decreases |events|
  {
    if |events| > 0 {
      StepInv(variant, m, events[0]);
      HungIsStuck(variant, Step(variant, m, events[0]), events[1..]);
    }
  }

  /**
   * The error state is terminal: a broken button is disabled, so no event but
   * the user's edits changes anything again.
   */
  lemma {:induction false} BrokenIsTerminal(variant: Variant, m: Machine, events: seq<Event>)
    requires Inv(m) && m.button.icon == Error
    ensures Run(variant, m, events) == m.(field := Edits(m.field, events))
    decreases |events|
  {
    if |events| > 0 {
      StepInv(variant, m, events[0]);
      BrokenIsTerminal(variant, Step(variant, m, events[0]), events[1..]);
    }
  }

  // ---------------------------------------------------------------------------
  // Whole clicks

  /** A click that picks `file`, reads it as `dataUrl` and gets `reply` back. */
  function UploadClick(file: File, dataUrl: string, reply: Reply): seq<Event>
  {
    [Click, PickerClosed(Some(file)), FileRead(dataUrl), UploadReplied(reply)]
  }

  /** The machine once the picker, the reader and the request have answered, before the reply is handled. */
  function Sent(m: Machine, file: File, dataUrl: string): Machine
  {
    m.(button := Busy, phase := Uploading(file),
       requests := m.requests + [UploadRequest(Base64Payload(dataUrl), file.name)])
  }

  /** A whole click on an idle button sends one upload and then handles its reply. */
  lemma UploadClickSends(variant: Variant, m: Machine, file: File, dataUrl: string, reply: Reply)
    requires Inv(m) && m.phase.Waiting? && m.button == Ready
    ensures Inv(Sent(m, file, dataUrl))
    ensures Run(variant, m, UploadClick(file, dataUrl, reply))
            == Step(variant, Sent(m, file, dataUrl), UploadReplied(reply))
  {
    var es := UploadClick(file, dataUrl, reply);
    var m1 := Step(variant, m, Click);
    var m2 := Step(variant, m1, PickerClosed(Some(file)));
    var m3 := Step(variant, m2, FileRead(dataUrl));
    assert m3 == Sent(m, file, dataUrl);
    var m4 := Step(variant, m3, UploadReplied(reply));
    assert es[1..][1..][1..] == [UploadReplied(reply)];
    assert Run(variant, m3, es[1..][1..][1..]) == m4;
    assert Run(variant, m2, es[1..][1..]) == m4;
    assert Run(variant, m1, es[1..]) == m4;
  }

  /**
   * The comment box is read when the link is inserted, not when the button
   * is clicked: an edit made while the upload is in flight is where the link
   * goes.
   */
  lemma EditDuringUploadIsUsed(variant: Variant, m: Machine, file: File, dataUrl: string, edited: TextField,
                               reply: Reply, link: string, text: string)
    requires Inv(m) && m.phase.Waiting? && m.button == Ready && edited.Valid()
    requires UploadFile(reply) == Some(Success(link)) && Embed(variant, link) == Success(text)
    ensures var r := Run(variant, m, [Click, PickerClosed(Some(file)), FileRead(dataUrl), Edited(edited), UploadReplied(reply)]);
            && r.field == InsertString(text, edited)
            && r.button == Ready
  {
    var es := [Click, PickerClosed(Some(file)), FileRead(dataUrl), Edited(edited), UploadReplied(reply)];
    var m1 := Step(variant, m, Click);
    var m2 := Step(variant, m1, PickerClosed(Some(file)));
    var m3 := Step(variant, m2, FileRead(dataUrl));
    assert m3 == Sent(m, file, dataUrl);
    var m4 := Step(variant, m3, Edited(edited));
    assert m4 == Sent(m, file, dataUrl).(field := edited);
    var m5 := Step(variant, m4, UploadReplied(reply));
    SuccessInsertsAndResets(variant, m4, reply, link, text);
    assert es[1..][1..][1..][1..] == [UploadReplied(reply)];
    assert Run(variant, m4, es[1..][1..][1..][1..]) == m5;
    assert Run(variant, m3, es[1..][1..][1..]) == m5;
    assert Run(variant, m2, es[1..][1..]) == m5;
    assert Run(variant, m1, es[1..]) == m5;
  }

  /**
   * In the TypeScript source the inserted markup is always Textile: a status
   * 200 reply puts `!link!` into the comment box, whatever the site.
   */
  lemma TypeScriptInsertsTextile(m: Machine, file: File, dataUrl: string, success: bool, link: string)
    requires Inv(m) && m.phase.Waiting? && m.button == Ready
    ensures var r := Run(TypeScriptSource, m, UploadClick(file, dataUrl, Loaded(Some(ApiResponse(success, 200, Some(link))))));
            && r.field == InsertString("!" + link + "!", m.field)
            && r.button == Ready && r.raised == m.raised
  {
    var reply := Loaded(Some(ApiResponse(success, 200, Some(link))));
    UploadClickSends(TypeScriptSource, m, file, dataUrl, reply);
    SuccessInsertsAndResets(TypeScriptSource, Sent(m, file, dataUrl), reply, link, "!" + link + "!");
  }

  /**
   * In the user script the site's dialect is looked up only after the upload:
   * on an unknown host the image is still sent, and the click then ends in
   * the error state with the domain error.
   */
  lemma UnknownHostUploadsThenFails(m: Machine, host: string, file: File, dataUrl: string, success: bool, link: string)
    requires Inv(m) && m.phase.Waiting? && m.button == Ready && host !in SyntaxByHost
    ensures var r := Run(UserScript(host), m, UploadClick(file, dataUrl, Loaded(Some(ApiResponse(success, 200, Some(link))))));
            && r.requests == m.requests + [UploadRequest(Base64Payload(dataUrl), file.name)]
            && r.button == Broken && r.raised == [DomainError] && r.field == m.field
  {
    var reply := Loaded(Some(ApiResponse(success, 200, Some(link))));
    UploadClickSends(UserScript(host), m, file, dataUrl, reply);
    FailureBreaksButton(UserScript(host), Sent(m, file, dataUrl), reply, DomainError);
  }

  /**
   * On a listed site a status 200 reply puts the link, in that site's
   * dialect, at the selection and resets the button.
   */
  lemma KnownSiteInsertsMarkup(m: Machine, host: string, file: File, dataUrl: string, success: bool, link: string)
    requires Inv(m) && m.phase.Waiting? && m.button == Ready && host in SyntaxByHost
    ensures var r := Run(UserScript(host), m, UploadClick(file, dataUrl, Loaded(Some(ApiResponse(success, 200, Some(link))))));
            && r.field == InsertString(WrapLink(SyntaxByHost[host], link), m.field)
            && r.button == Ready && r.raised == m.raised
  {
    var variant, reply := UserScript(host), Loaded(Some(ApiResponse(success, 200, Some(link))));
    UploadClickSends(variant, m, file, dataUrl, reply);
    SuccessInsertsAndResets(variant, Sent(m, file, dataUrl), reply, link, WrapLink(SyntaxByHost[host], link));
  }

  /** A reply with any status but 200 breaks the button, and the comment box is untouched. */
  lemma BadStatusBreaksButton(variant: Variant, m: Machine, file: File, dataUrl: string, response: ApiResponse)
    requires Inv(m) && m.phase.Waiting? && m.button == Ready && response.status != 200
    ensures var r := Run(variant, m, UploadClick(file, dataUrl, Loaded(Some(response))));
            && r.button == Broken && r.raised == [StatusError] && r.field == m.field
  {
    UploadClickSends(variant, m, file, dataUrl, Loaded(Some(response)));
    FailureBreaksButton(variant, Sent(m, file, dataUrl), Loaded(Some(response)), StatusError);
  }
}

/**
 * `showUrlChoiceDialog(currentUrl, canonicalUrl)` of copy_link_with_metadata.user.js.
 * The dialog opens with the "current" radio button checked.  The user may check
 * either button, click "Копировать" (confirm), click "Отмена" (cancel) or press a key;
 * confirm resolves the promise with the URL of the checked button, cancel and the
 * Escape key resolve it with null.  A promise resolves once: after that the
 * overlay is gone and nothing the user does changes the outcome.
 */
module UrlChoiceDialog {
  import opened Wrappers

  /** The two radio buttons, `value="current"` and `value="canonical"`. */
  datatype Choice = Current | Canonical

  /** What the user can do while the dialog is shown. */
  datatype UserEvent = Check(choice: Choice) | ConfirmClick | CancelClick | KeyDown(key: string)

  /** The promise: still pending, or resolved with a URL or null. */
  datatype Status = Open | Settled(url: Option<string>)

  /** The dialog's observable state: which button is checked and the promise's status. */
  datatype DialogState = DialogState(selected: Choice, status: Status)

  /** The state right after the dialog is shown. */
  const Initial := DialogState(Current, Open)

  /**
   * What confirming resolves with.  `ConfirmOutcome` states what this means for a
   * whole session: the canonical URL exactly when "canonical" was checked last.
   */
  function ConfirmedUrl(currentUrl: string, canonicalUrl: string, selected: Choice): (r: string)
    ensures r == canonicalUrl <== selected == Canonical
    ensures r == currentUrl <== selected == Current
  {
    if selected == Canonical then canonicalUrl else currentUrl
  }

  /** One user event. */
  function Step(currentUrl: string, canonicalUrl: string, s: DialogState, e: UserEvent): (r: DialogState)
    ensures s.status.Settled? ==> r == s
    ensures e.KeyDown? && e.key != "Escape" ==> r == s
    ensures s.status.Open? && (e.CancelClick? || e == KeyDown("Escape")) ==> r == DialogState(s.selected, Settled(None))
    ensures s.status.Open? && e.ConfirmClick? ==> r.status == Settled(Some(ConfirmedUrl(currentUrl, canonicalUrl, s.selected)))
    ensures s.status.Open? && r.status.Settled? ==> r.status.url in {None, Some(currentUrl), Some(canonicalUrl)}
  {
    if s.status.Settled? then s
    else match e
      case Check(choice) => s.(selected := choice)
      case ConfirmClick => s.(status := Settled(Some(ConfirmedUrl(currentUrl, canonicalUrl, s.selected))))
      case CancelClick => s.(status := Settled(None))
      case KeyDown(key) => if key == "Escape" then s.(status := Settled(None)) else s
  }

  /** The state after a sequence of user events, from `s`. */
  function Run(currentUrl: string, canonicalUrl: string, s: DialogState, events: seq<UserEvent>): (r: DialogState)
    ensures s.status.Settled? ==> r == s
    ensures r.status.Open? ==> s.status.Open? && forall k :: 0 <= k < |events| ==> !events[k].ConfirmClick? && !events[k].CancelClick? && events[k] != KeyDown("Escape")
    decreases |events|
  {
    if events == [] then s
    else Run(currentUrl, canonicalUrl, Step(currentUrl, canonicalUrl, s, events[0]), events[1..])
  }

  /** The button checked by the last `Check` event, or `selected` when there is none. */
  function LastChecked(events: seq<UserEvent>, selected: Choice): Choice
    decreases |events|
  {
    if events == [] then selected
    else if events[|events| - 1].Check? then events[|events| - 1].choice
    else LastChecked(events[..|events| - 1], selected)
  }

  lemma {:induction false} RunAppend(currentUrl: string, canonicalUrl: string, s: DialogState, a: seq<UserEvent>, b: seq<UserEvent>)
    ensures Run(currentUrl, canonicalUrl, s, a + b) == Run(currentUrl, canonicalUrl, Run(currentUrl, canonicalUrl, s, a), b)
    decreases |a|
  {
    if a == [] {
      assert a + b == b;
    } else {
      assert (a + b)[0] == a[0] && (a + b)[1..] == a[1..] + b;
      RunAppend(currentUrl, canonicalUrl, Step(currentUrl, canonicalUrl, s, a[0]), a[1..], b);
    }
  }

  /** The promise resolves once: events after it has settled change nothing. */
  lemma {:induction false} SettledIsFinal(currentUrl: string, canonicalUrl: string, s: DialogState, events: seq<UserEvent>)
    requires s.status.Settled?
    ensures Run(currentUrl, canonicalUrl, s, events) == s
    decreases |events|
  {
    if events != [] {
      SettledIsFinal(currentUrl, canonicalUrl, Step(currentUrl, canonicalUrl, s, events[0]), events[1..]);
    }
  }

  /** Whatever the user does, the dialog resolves with the current URL, the canonical URL or null. */
  lemma {:induction false} RunOutcome(currentUrl: string, canonicalUrl: string, events: seq<UserEvent>)
    ensures Run(currentUrl, canonicalUrl, Initial, events).status.Settled? ==>
              Run(currentUrl, canonicalUrl, Initial, events).status.url in {None, Some(currentUrl), Some(canonicalUrl)}
  {
    RunOutcomeFrom(currentUrl, canonicalUrl, Initial, events);
  }

  lemma {:induction false} RunOutcomeFrom(currentUrl: string, canonicalUrl: string, s: DialogState, events: seq<UserEvent>)
    requires s.status.Settled? ==> s.status.url in {None, Some(currentUrl), Some(canonicalUrl)}
    ensures Run(currentUrl, canonicalUrl, s, events).status.Settled? ==>
              Run(currentUrl, canonicalUrl, s, events).status.url in {None, Some(currentUrl), Some(canonicalUrl)}
    decreases |events|
  {
    if events != [] {
      RunOutcomeFrom(currentUrl, canonicalUrl, Step(currentUrl, canonicalUrl, s, events[0]), events[1..]);
    }
  }

  /** While the dialog is open, the checked button is the one the user checked last ("current" if none). */
  lemma {:induction false} SelectionWhileOpen(currentUrl: string, canonicalUrl: string, events: seq<UserEvent>)
    requires Run(currentUrl, canonicalUrl, Initial, events).status.Open?
    ensures Run(currentUrl, canonicalUrl, Initial, events).selected == LastChecked(events, Current)
    decreases |events|
  {
    if events != [] {
      var front, last := events[..|events| - 1], events[|events| - 1];
      assert events == front + [last];
      RunAppend(currentUrl, canonicalUrl, Initial, front, [last]);
      var before := Run(currentUrl, canonicalUrl, Initial, front);
      if before.status.Settled? {
        SettledIsFinal(currentUrl, canonicalUrl, before, [last]);
      } else {
        SelectionWhileOpen(currentUrl, canonicalUrl, front);
      }
    }
  }

  /**
   * Confirming resolves with the canonical URL exactly when "canonical" was the
   * last button checked, and with the current URL otherwise.
   */
  lemma ConfirmOutcome(currentUrl: string, canonicalUrl: string, events: seq<UserEvent>)
    requires Run(currentUrl, canonicalUrl, Initial, events).status.Open?
    ensures Run(currentUrl, canonicalUrl, Initial, events + [ConfirmClick]).status ==
              Settled(Some(if LastChecked(events, Current) == Canonical then canonicalUrl else currentUrl))
  {
    SelectionWhileOpen(currentUrl, canonicalUrl, events);
    RunAppend(currentUrl, canonicalUrl, Initial, events, [ConfirmClick]);
  }

  /** Cancel and Escape both resolve an open dialog with null. */
  lemma DismissOutcome(currentUrl: string, canonicalUrl: string, events: seq<UserEvent>, dismiss: UserEvent)
    requires Run(currentUrl, canonicalUrl, Initial, events).status.Open?
    requires dismiss == CancelClick || dismiss == KeyDown("Escape")
    ensures Run(currentUrl, canonicalUrl, Initial, events + [dismiss]).status == Settled(None)
  {
    RunAppend(currentUrl, canonicalUrl, Initial, events, [dismiss]);
  }

  /** The dialog as the page holds it: the two URLs it shows and its mutable state. */
  class Dialog {
    const currentUrl: string
    const canonicalUrl: string
    var selected: Choice
    var status: Status

    function State(): DialogState
      reads this
    {
      DialogState(selected, status)
    }

    /** The dialog is shown with "current" checked and the promise pending. */
    constructor (currentUrl: string, canonicalUrl: string)
      ensures this.currentUrl == currentUrl && this.canonicalUrl == canonicalUrl
      ensures State() == Initial
    {
      this.currentUrl := currentUrl;
      this.canonicalUrl := canonicalUrl;
      selected := Current;
      status := Open;
    }

    /** The radio buttons, the two click handlers and the keydown handler. */
    method Handle(e: UserEvent)
      modifies this
      ensures State() == Step(currentUrl, canonicalUrl, old(State()), e)
    {
      if status.Open? {
        match e
        case Check(choice) =>
          selected := choice;
        case ConfirmClick =>
          status := Settled(Some(if selected == Canonical then canonicalUrl else currentUrl));
        case CancelClick =>
          status := Settled(None);
        case KeyDown(key) =>
          if key == "Escape" {
            status := Settled(None);
          }
      }
    }
  }
}

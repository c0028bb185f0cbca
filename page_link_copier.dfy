/**
 * The "Копировать ссылку на страницу" menu command of copy_link_with_metadata.user.js:
 * `copyPageLink` together with the userscript's one piece of shared state, the
 * `toastStylesInitialized` flag behind `initToastStyles`.
 *
 * The awaited collaborators are inputs: the user's actions in the URL dialog are a
 * sequence of events, and the clipboard is described by which of its calls
 * succeed.  The page's `<head>`, the toasts shown and the clipboard's content are
 * fields of the `PageLinkCopier` object, which stands for the userscript's closure.
 */
module PageLinkCopier {
  import opened Wrappers
  import opened JsString
  import opened PageMetadata
  import opened LinkSnippet
  import opened UrlChoiceDialog

  datatype ToastKind = Success | Error

  /** A toast notification, `showToast(message, type)`. */
  datatype Toast = Toast(message: string, kind: ToastKind)

  const CancelledToast := Toast("Копирование отменено", Error)
  const CopiedToast := Toast("Ссылка скопирована в буфер обмена!", Success)
  const FailedToast := Toast("Ошибка при копировании", Error)

  /** What ends up on the clipboard. */
  datatype ClipboardItem =
    | HtmlAndText(html: string, text: string)   // navigator.clipboard.write of one ClipboardItem
    | TextOnly(text: string)                     // GM_setClipboard or navigator.clipboard.writeText

  /** Which of the clipboard calls succeed in this browser. */
  datatype ClipboardEnv = ClipboardEnv(
    richWriteSucceeds: bool,         // navigator.clipboard.write resolves
    gmSetClipboardDefined: bool,     // typeof GM_setClipboard !== 'undefined'
    writeTextSucceeds: bool)         // navigator.clipboard.writeText resolves

  /**
   * The effect of one invocation: whether the URL dialog was shown, what was put on
   * the clipboard, and the toast shown at the end.  No toast means the
   * invocation is still waiting for the user to close the dialog.
   */
  datatype CopyOutcome = CopyOutcome(dialogShown: bool, written: Option<ClipboardItem>, toast: Option<Toast>)

  /** The dialog is offered only for a truthy canonical URL that differs from the current one. */
  predicate OffersChoice(metadata: Metadata) {
    Truthy(metadata.canonicalUrl) && metadata.canonicalUrl.value != metadata.url
  }

  /** The clipboard step and the final toast, for the snippet `linkHtml`. */
  function Deliver(dialogShown: bool, linkHtml: string, clip: ClipboardEnv): (r: CopyOutcome)
    ensures r.dialogShown == dialogShown
    ensures r.written.Some? <==> r.toast == Some(CopiedToast)
    ensures r.written.None? ==> r.toast == Some(FailedToast)
    ensures r.written.Some? ==> Holds(r.written.value, linkHtml)
    ensures r.written == Some(HtmlAndText(linkHtml, linkHtml)) <==> clip.richWriteSucceeds
    ensures r.written.None? <==> !clip.richWriteSucceeds && !clip.gmSetClipboardDefined && !clip.writeTextSucceeds
  {
    if clip.richWriteSucceeds then CopyOutcome(dialogShown, Some(HtmlAndText(linkHtml, linkHtml)), Some(CopiedToast))
    else if clip.gmSetClipboardDefined then CopyOutcome(dialogShown, Some(TextOnly(linkHtml)), Some(CopiedToast))
    else if clip.writeTextSucceeds then CopyOutcome(dialogShown, Some(TextOnly(linkHtml)), Some(CopiedToast))
    else CopyOutcome(dialogShown, None, Some(FailedToast))
  }

  /** The clipboard item carries `linkHtml` in each of its representations. */
  predicate Holds(item: ClipboardItem, linkHtml: string) {
    match item
    case HtmlAndText(html, text) => html == linkHtml && text == linkHtml
    case TextOnly(text) => text == linkHtml
  }

  /** The specification of one `copyPageLink()` invocation. */
  function CopyPageLinkOutcome(page: Page, resolve: UrlResolver, events: seq<UserEvent>, clip: ClipboardEnv): (r: CopyOutcome)
    ensures var e := GetPageMetadata(page, resolve);
            e.ResolutionFailed? ==> r == CopyOutcome(false, None, Some(FailedToast))
    ensures var e := GetPageMetadata(page, resolve);
            r.dialogShown <==> e.Extracted? && OffersChoice(e.metadata)
    ensures var e := GetPageMetadata(page, resolve);
            r.written.Some? ==>
              && e.Extracted?
              && (|| Holds(r.written.value, GenerateLink(page.location, e.metadata))
                  || (page.canonicalLink.Some? && Holds(r.written.value, GenerateLink(page.canonicalLink.value, e.metadata))))
  {
    match GetPageMetadata(page, resolve)
    case ResolutionFailed(_) => CopyOutcome(false, None, Some(FailedToast))
    case Extracted(metadata) => CopyOutcomeFor(metadata, events, clip)
  }

  /** What `copyPageLink` does once `getPageMetadata` has returned `metadata`. */
  function CopyOutcomeFor(metadata: Metadata, events: seq<UserEvent>, clip: ClipboardEnv): (r: CopyOutcome)
    ensures r.dialogShown <==> OffersChoice(metadata)
    ensures !OffersChoice(metadata) ==> r == Deliver(false, GenerateLink(metadata.url, metadata), clip)
    ensures r.written.Some? ==>
              && r.toast == Some(CopiedToast)
              && (|| Holds(r.written.value, GenerateLink(metadata.url, metadata))
                  || (metadata.canonicalUrl.Some? && Holds(r.written.value, GenerateLink(metadata.canonicalUrl.value, metadata))))
    ensures OffersChoice(metadata) ==>
              var d := Run(metadata.url, metadata.canonicalUrl.value, Initial, events).status;
              && (d.Open? ==> r == CopyOutcome(true, None, None))
              && (d.Settled? && !Truthy(d.url) ==> r == CopyOutcome(true, None, Some(CancelledToast)))
  {
    if OffersChoice(metadata) then
      var dialog := Run(metadata.url, metadata.canonicalUrl.value, Initial, events);
      RunOutcome(metadata.url, metadata.canonicalUrl.value, events);
      if dialog.status.Open? then CopyOutcome(true, None, None)
      else if !Truthy(dialog.status.url) then CopyOutcome(true, None, Some(CancelledToast))
      else Deliver(true, GenerateLink(dialog.status.url.value, metadata), clip)
    else Deliver(false, GenerateLink(metadata.url, metadata), clip)
  }

  /** Cancelling the dialog, by button or by Escape, ends with the cancel toast and writes nothing. */
  lemma CancelWritesNothing(page: Page, resolve: UrlResolver, events: seq<UserEvent>, dismiss: UserEvent, clip: ClipboardEnv)
    requires GetPageMetadata(page, resolve).Extracted? && OffersChoice(GetPageMetadata(page, resolve).metadata)
    requires Run(page.location, page.canonicalLink.value, Initial, events).status.Open?
    requires dismiss == CancelClick || dismiss == KeyDown("Escape")
    ensures CopyPageLinkOutcome(page, resolve, events + [dismiss], clip) == CopyOutcome(true, None, Some(CancelledToast))
  {
    DismissOutcome(page.location, page.canonicalLink.value, events, dismiss);
  }

  /** Confirming copies the snippet for the URL whose button was checked last. */
  lemma ConfirmCopiesChosenUrl(page: Page, resolve: UrlResolver, events: seq<UserEvent>, clip: ClipboardEnv)
    requires GetPageMetadata(page, resolve).Extracted? && OffersChoice(GetPageMetadata(page, resolve).metadata)
    requires Run(page.location, page.canonicalLink.value, Initial, events).status.Open?
    requires page.location != ""
    ensures var chosen := if LastChecked(events, Current) == Canonical then page.canonicalLink.value else page.location;
            CopyPageLinkOutcome(page, resolve, events + [ConfirmClick], clip) ==
              Deliver(true, GenerateLink(chosen, GetPageMetadata(page, resolve).metadata), clip)
  {
    ConfirmOutcome(page.location, page.canonicalLink.value, events);
  }

  /**
   * `await showUrlChoiceDialog(currentUrl, canonicalUrl)`: the dialog is shown and
   * handles the user's events until its promise settles; Open means the events ran
   * out first and the promise is still pending.
   */
  method AwaitChoice(currentUrl: string, canonicalUrl: string, events: seq<UserEvent>) returns (status: Status)
    ensures status == Run(currentUrl, canonicalUrl, Initial, events).status
  {
    var dialog := new Dialog(currentUrl, canonicalUrl);
    var i := 0;
    while i < |events| && dialog.status.Open?
      invariant i <= |events|
      invariant dialog.State() == Run(currentUrl, canonicalUrl, Initial, events[..i])
    {
      assert events[..i + 1] == events[..i] + [events[i]];
      RunAppend(currentUrl, canonicalUrl, Initial, events[..i], [events[i]]);
      dialog.Handle(events[i]);
      i := i + 1;
    }
    assert events == events[..i] + events[i..];
    RunAppend(currentUrl, canonicalUrl, Initial, events[..i], events[i..]);
    if i < |events| {
      SettledIsFinal(currentUrl, canonicalUrl, dialog.State(), events[i..]);
    }
    status := dialog.status;
  }

  /** The userscript's closure: its style flag, and what it does to the page and the clipboard. */
  class PageLinkCopier {
    var toastStylesInitialized: bool
    var styleElements: nat                 // <style> elements appended to document.head
    var toasts: seq<Toast>                 // every toast shown, oldest first
    var clipboard: Option<ClipboardItem>
    var dialogsShown: nat

    /** At most one style element, present exactly when the flag is set, and set before any toast. */
    ghost predicate Valid()
      reads this
    {
      styleElements == (if toastStylesInitialized then 1 else 0) &&
      (toasts != [] ==> toastStylesInitialized)
    }

    /** The state when the userscript has just been loaded. */
    constructor ()
      ensures Valid()
      ensures !toastStylesInitialized && styleElements == 0 && toasts == [] && clipboard == None && dialogsShown == 0
    {
      toastStylesInitialized := false;
      styleElements := 0;
      toasts := [];
      clipboard := None;
      dialogsShown := 0;
    }

    /** `initToastStyles()`: appends the style element on the first call only. */
    method InitToastStyles()
      requires Valid()
      modifies this
      ensures Valid()
      ensures toastStylesInitialized && styleElements == 1
      ensures old(toastStylesInitialized) ==> styleElements == old(styleElements)
      ensures toasts == old(toasts) && clipboard == old(clipboard) && dialogsShown == old(dialogsShown)
    {
      if toastStylesInitialized {
        return;
      }
      styleElements := styleElements + 1;
      toastStylesInitialized := true;
    }

    /** `showToast(message, type)`; the timers that later remove the toast are not modelled. */
    method ShowToast(toast: Toast)
      requires Valid()
      modifies this
      ensures Valid()
      ensures toastStylesInitialized && styleElements == 1
      ensures toasts == old(toasts) + [toast]
      ensures clipboard == old(clipboard) && dialogsShown == old(dialogsShown)
    {
      InitToastStyles();
      toasts := toasts + [toast];
    }

    /** `copyPageLink()`. */
    method CopyPageLink(page: Page, resolve: UrlResolver, events: seq<UserEvent>, clip: ClipboardEnv)
      requires Valid()
      modifies this
      ensures Valid()
      ensures var r := CopyPageLinkOutcome(page, resolve, events, clip);
              && clipboard == (if r.written.Some? then r.written else old(clipboard))
              && toasts == old(toasts) + (if r.toast.Some? then [r.toast.value] else [])
              && dialogsShown == old(dialogsShown) + (if r.dialogShown then 1 else 0)
              && toastStylesInitialized == (old(toastStylesInitialized) || r.toast.Some?)
    {
      var extraction := GetPageMetadata(page, resolve);
      if extraction.ResolutionFailed? {
        ShowToast(FailedToast);
        return;
      }
      CopyWithMetadata(extraction.metadata, events, clip);
    }

    /** The `try` block of `copyPageLink` after `getPageMetadata` has returned. */
    method CopyWithMetadata(metadata: Metadata, events: seq<UserEvent>, clip: ClipboardEnv)
      requires Valid()
      modifies this
      ensures Valid()
      ensures var r := CopyOutcomeFor(metadata, events, clip);
              && clipboard == (if r.written.Some? then r.written else old(clipboard))
              && toasts == old(toasts) + (if r.toast.Some? then [r.toast.value] else [])
              && dialogsShown == old(dialogsShown) + (if r.dialogShown then 1 else 0)
              && toastStylesInitialized == (old(toastStylesInitialized) || r.toast.Some?)
    {
      ghost var r := CopyOutcomeFor(metadata, events, clip);
      var selectedUrl := metadata.url;
      if Truthy(metadata.canonicalUrl) && metadata.canonicalUrl.value != metadata.url {
        dialogsShown := dialogsShown + 1;
        var status := AwaitChoice(metadata.url, metadata.canonicalUrl.value, events);
        if status.Open? {
          // The promise never resolves: the invocation waits for ever.
          return;
        }
        if !Truthy(status.url) {
          ShowToast(CancelledToast);
          return;
        }
        selectedUrl := status.url.value;
        assert r == Deliver(true, GenerateLink(selectedUrl, metadata), clip);
      }
      var linkHtml := GenerateLink(selectedUrl, metadata);
      WriteToClipboard(linkHtml, clip);
    }

    /**
     * The clipboard block of `copyPageLink`: the rich write, else the plain-text
     * fallback, then the success toast; a rejected `writeText` reaches the outer
     * catch and its failure toast.
     */
    method WriteToClipboard(linkHtml: string, clip: ClipboardEnv)
      requires Valid()
      modifies this
      ensures Valid()
      ensures var r := Deliver(false, linkHtml, clip);
              && clipboard == (if r.written.Some? then r.written else old(clipboard))
              && toasts == old(toasts) + [r.toast.value]
              && dialogsShown == old(dialogsShown)
              && toastStylesInitialized
    {
      if clip.richWriteSucceeds {
        clipboard := Some(HtmlAndText(linkHtml, linkHtml));
      } else if clip.gmSetClipboardDefined {
        clipboard := Some(TextOnly(linkHtml));
      } else if clip.writeTextSucceeds {
        clipboard := Some(TextOnly(linkHtml));
      } else {
        ShowToast(FailedToast);
        return;
      }
      ShowToast(CopiedToast);
    }
  }
}

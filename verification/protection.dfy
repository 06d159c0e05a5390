/**
 * The copy-protection layer: guards that decide which clipboard, selection, keyboard,
 * context-menu, drag and window-size events are cancelled (form fields are exempt), and
 * the `CopyProtection` object with its enable flag, its overlay, its single-instance
 * notification and its long-press timer.
 *
 * It is friction, not protection: every guard is a page script a visitor can switch off.
 */
module Protection {
  import opened Wrappers

  const SelectionLimit := 5
  const DevToolsThreshold := 160

  const CopyNotice: string := "\U{1F6AB} Copying disabled"
  const PasteNotice: string := "\U{1F6AB} Pasting disabled"
  const PrintKeyNotice: string := "\U{1F6AB} Printing disabled - Content protected with watermark"
  const BeforePrintNotice: string := "\U{1F6AB} Printing disabled - Watermark applied"
  const DevToolsKeyNotice: string := "\U{1F6AB} Developer tools disabled"
  const SaveNotice: string := "\U{1F6AB} Page saving disabled"
  const RightClickNotice: string := "\U{1F6AB} Right-click disabled"
  const LongPressNotice: string := "\U{1F6AB} Long press disabled"
  const DevToolsDetectedNotice: string := "\U{1F6AB} Developer tools detected"

  // ---------------------------------------------------------------------------
  // Guards

  /** The exemption used everywhere: the element is an `INPUT` or a `TEXTAREA`. */
  predicate IsFormField(tagName: string) {
    tagName == "INPUT" || tagName == "TEXTAREA"
  }

  /** `document.activeElement` may be null, which is not a form field. */
  predicate ActiveIsFormField(active: Option<string>) {
    active.Some? && IsFormField(active.value)
  }

  /** JavaScript's `length` of a string: UTF-16 code units, two for a character beyond U+FFFF. */
  function Utf16Length(s: string): (n: nat)
    ensures |s| <= n <= 2 * |s|
  {
    if s == [] then 0 else (if s[0] as int >= 0x1_0000 then 2 else 1) + Utf16Length(s[1..])
  }

  predicate InBasicPlane(s: string) {
    forall i :: 0 <= i < |s| ==> s[i] as int < 0x1_0000
  }

  lemma {:induction false} BasicPlaneLength(s: string)
    requires InBasicPlane(s)
    ensures Utf16Length(s) == |s|
  {
    if s != [] {
      assert InBasicPlane(s[1..]) by {
        forall i | 0 <= i < |s| - 1 ensures s[1..][i] as int < 0x1_0000 {
          assert s[1..][i] == s[i + 1];
        }
      }
      BasicPlaneLength(s[1..]);
    }
  }

  /** `handleCopy` (for copy and cut), when enabled: a selection longer than 5 outside a form field. */
  predicate CopyBlocked(selection: string, targetTag: string) {
    Utf16Length(selection) > SelectionLimit && !IsFormField(targetTag)
  }

  /**
   * The copy threshold: for text within the basic plane the limit is on characters, so
   * exactly 5 pass and 6 are blocked; three characters beyond U+FFFF already count as 6.
   */
  lemma CopyThreshold(selection: string, targetTag: string)
    ensures InBasicPlane(selection) ==>
      (CopyBlocked(selection, targetTag) <==> |selection| > 5 && !IsFormField(targetTag))
    ensures |selection| > 5 && !IsFormField(targetTag) ==> CopyBlocked(selection, targetTag)
    ensures IsFormField(targetTag) ==> !CopyBlocked(selection, targetTag)
  {
    if InBasicPlane(selection) {
      BasicPlaneLength(selection);
    }
  }

  lemma AstralSelectionBlocked()
    ensures CopyBlocked("\U{1F600}\U{1F600}\U{1F600}", "P")
  {
    var s := "\U{1F600}\U{1F600}\U{1F600}";
    assert s[1..][1..][1..] == [];
  }

  /** The 100 ms tick: clears a selection longer than 5 unless a form field has focus. */
  predicate TickClears(selection: string, active: Option<string>) {
    Utf16Length(selection) > SelectionLimit && !ActiveIsFormField(active)
  }

  /** `selectstart` is cancelled outside form fields. */
  predicate SelectStartCancelled(targetTag: string) {
    !IsFormField(targetTag)
  }

  /** `mousedown` is cancelled when Shift is held outside form fields. */
  predicate MouseDownCancelled(shiftKey: bool, targetTag: string) {
    shiftKey && !IsFormField(targetTag)
  }

  /** 50 ms after `mouseup` the selection is cleared unless a form field has focus. */
  predicate MouseUpClears(active: Option<string>) {
    !ActiveIsFormField(active)
  }

  /** `dragstart` is cancelled on links and images only. */
  predicate DragStartCancelled(targetTag: string) {
    targetTag == "A" || targetTag == "IMG"
  }

  /** `checkDevTools`: the window is more than 160 wider or taller than its viewport. */
  predicate DevToolsSuspected(outerWidth: int, innerWidth: int, outerHeight: int, innerHeight: int) {
    outerWidth - innerWidth > DevToolsThreshold || outerHeight - innerHeight > DevToolsThreshold
  }

  /**
   * The selection guards and the form-field exemption: inside a form field nothing is
   * cleared or cancelled; outside, the thresholds are strict.
   */
  lemma SelectionGuards(selection: string, active: Option<string>, targetTag: string, shiftKey: bool)
    ensures ActiveIsFormField(active) ==> !TickClears(selection, active) && !MouseUpClears(active)
    ensures IsFormField(targetTag) ==> !SelectStartCancelled(targetTag) && !MouseDownCancelled(shiftKey, targetTag)
    ensures active.None? ==> MouseUpClears(active) && (TickClears(selection, active) <==> Utf16Length(selection) > 5)
    ensures !shiftKey ==> !MouseDownCancelled(shiftKey, targetTag)
    ensures InBasicPlane(selection) && |selection| == 5 ==> !TickClears(selection, active)
  {
    if InBasicPlane(selection) {
      BasicPlaneLength(selection);
    }
  }

  /** Only links and images refuse to be dragged; tag names are matched case-sensitively. */
  lemma DragGuard(targetTag: string)
    ensures DragStartCancelled(targetTag) ==> !IsFormField(targetTag)
    ensures !DragStartCancelled("a") && !DragStartCancelled("img") && !DragStartCancelled("P")
  {
  }

  lemma DevToolsThresholdStrict(outer: int, inner: int)
    ensures !DevToolsSuspected(inner + 160, inner, inner + 160, inner)
    ensures DevToolsSuspected(outer, inner, 0, 0) <==> outer - inner > 160
  {
  }

  // ---------------------------------------------------------------------------
  // Keyboard

  datatype KeyEvent = KeyEvent(key: string, ctrlKey: bool, shiftKey: bool, metaKey: bool)

  /** What the three `keydown` listeners do together: whether the default is prevented, and the notices shown in order. */
  datatype Response = Response(cancelled: bool, notices: seq<string>)

  /** The print listener: Ctrl/Cmd+P. */
  function PrintKeyListener(e: KeyEvent): Response {
    if (e.ctrlKey || e.metaKey) && e.key == "p" then Response(true, [PrintKeyNotice])
    else Response(false, [])
  }

  /** The keyboard listener: developer-tools shortcuts first, then Ctrl/Cmd+S. */
  function ShortcutListener(e: KeyEvent): Response {
    if e.key == "F12"
      || (e.ctrlKey && e.shiftKey && (e.key == "I" || e.key == "J" || e.key == "C"))
      || (e.ctrlKey && e.key == "u")
    then Response(true, [DevToolsKeyNotice])
    else if (e.ctrlKey || e.metaKey) && e.key == "s" then Response(true, [SaveNotice])
    else Response(false, [])
  }

  /** The context-menu key listener: cancels silently. */
  function ContextMenuKeyListener(e: KeyEvent): Response {
    Response(e.key == "ContextMenu", [])
  }

  /** The listeners run in the order they were attached. */
  function KeyDown(e: KeyEvent): Response {
    var a, b, c := PrintKeyListener(e), ShortcutListener(e), ContextMenuKeyListener(e);
    Response(a.cancelled || b.cancelled || c.cancelled, a.notices + b.notices + c.notices)
  }

  predicate DevToolsShortcut(e: KeyEvent) {
    e.key == "F12" || (e.ctrlKey && e.shiftKey && e.key in ["I", "J", "C"]) || (e.ctrlKey && e.key == "u")
  }

  /**
   * Key blocking: the blocked combinations, each with its one notice; the context-menu key
   * is cancelled without a notice; everything else passes untouched. Matching is
   * case-sensitive and Meta alone does not count for the developer-tools shortcuts.
   */
  lemma KeyBlocking(e: KeyEvent)
    ensures |KeyDown(e).notices| <= 1
    ensures DevToolsShortcut(e) ==> KeyDown(e) == Response(true, [DevToolsKeyNotice])
    ensures (e.ctrlKey || e.metaKey) && e.key == "s" ==> KeyDown(e) == Response(true, [SaveNotice])
    ensures (e.ctrlKey || e.metaKey) && e.key == "p" ==> KeyDown(e) == Response(true, [PrintKeyNotice])
    ensures e.key == "ContextMenu" ==> KeyDown(e) == Response(true, [])
    ensures KeyDown(e).cancelled <==>
      DevToolsShortcut(e) || ((e.ctrlKey || e.metaKey) && (e.key == "s" || e.key == "p")) || e.key == "ContextMenu"
    ensures !KeyDown(e).cancelled ==> KeyDown(e).notices == []
    ensures !e.ctrlKey && e.key in ["I", "J", "C", "u", "i", "j", "c", "U"] ==> !KeyDown(e).cancelled
  {
  }

  // ---------------------------------------------------------------------------
  // The protection object

  class CopyProtection {
    var isEnabled: bool
    /** Whether the "Content Protected" overlay carries `active`. */
    var overlayActive: bool
    /** The texts of the `.copy-tracking-notification` nodes in the document, in order. */
    var notifications: seq<string>
    /** The handles of those nodes, which their removal timers hold on to. */
    var noticeHandles: seq<nat>
    var nextNotice: nat
    /** The selections handed to the analytics collaborator's `trackCopy`, in order. */
    var tracked: seq<string>
    /** The handle of the last long-press timer set. */
    var touchTimer: Option<nat>
    /** The long-press timers that are set and have neither been cleared nor fired. */
    var armed: set<nat>
    var nextHandle: nat

    ghost predicate Valid()
      reads this
    {
      && |notifications| <= 1
      && |noticeHandles| == |notifications|
      && (forall h :: h in noticeHandles ==> h < nextNotice)
      && (forall h :: h in armed ==> h < nextHandle)
      && (touchTimer.Some? ==> touchTimer.value < nextHandle)
    }

    /** The constructor and `init`: enabled, overlay created but hidden, nothing shown yet. */
    constructor ()
      ensures Valid() && isEnabled && !overlayActive
      ensures notifications == [] && noticeHandles == [] && tracked == [] && touchTimer == None && armed == {}
    {
      isEnabled, overlayActive := true, false;
      notifications, noticeHandles, nextNotice, tracked := [], [], 0, [];
      touchTimer, armed, nextHandle := None, {}, 0;
    }

    method Enable()
      requires Valid()
      modifies this`isEnabled
      ensures Valid() && isEnabled
    {
      isEnabled := true;
    }

    method Disable()
      requires Valid()
      modifies this`isEnabled
      ensures Valid() && !isEnabled
    {
      isEnabled := false;
    }

    /**
     * `showNotification`: removes the first existing notification, then appends the new one
     * under a fresh handle. Since every notification is added here, there is never more than one.
     */
    method ShowNotification(message: string)
      requires Valid()
      modifies this`notifications, this`noticeHandles, this`nextNotice
      ensures Valid()
      ensures notifications == (if old(notifications) == [] then [] else old(notifications)[1..]) + [message]
      ensures notifications == [message]
      ensures noticeHandles == [old(nextNotice)] && old(nextNotice) !in old(noticeHandles)
    {
      if notifications != [] {
        notifications, noticeHandles := notifications[1..], noticeHandles[1..];
      }
      notifications, noticeHandles := notifications + [message], noticeHandles + [nextNotice];
      nextNotice := nextNotice + 1;
    }

    /**
     * The removal timer of the notification with handle `h`, 3300 ms after it was shown: the
     * node removes itself if it is still in the document; one that a later notification has
     * already replaced is gone, and the newer one stays.
     */
    method NotificationExpired(h: nat)
      requires Valid() && h < nextNotice
      modifies this`notifications, this`noticeHandles
      ensures Valid()
      ensures h in old(noticeHandles) ==> notifications == [] && noticeHandles == []
      ensures h !in old(noticeHandles) ==> notifications == old(notifications) && noticeHandles == old(noticeHandles)
    {
      if h in noticeHandles {
        notifications, noticeHandles := [], [];
      }
    }

    /** `showOverlay` */
    method ShowOverlay()
      requires Valid()
      modifies this`overlayActive
      ensures Valid() && overlayActive
    {
      overlayActive := true;
    }

    /** The overlay's "Understand" button, and the timer 3000 ms after `showOverlay`. */
    method HideOverlay()
      requires Valid()
      modifies this`overlayActive
      ensures Valid() && !overlayActive
    {
      overlayActive := false;
    }

    /** `handleCopy`, for `copy` and `cut`; `analytics` says whether `window.copyAnalytics` exists. */
    method HandleCopy(selection: string, targetTag: string, analytics: bool) returns (cancelled: bool)
      requires Valid()
      modifies this`overlayActive, this`notifications, this`noticeHandles, this`nextNotice, this`tracked
      ensures Valid()
      ensures cancelled <==> old(isEnabled) && CopyBlocked(selection, targetTag)
      ensures cancelled ==>
        && overlayActive && notifications == [CopyNotice]
        && tracked == old(tracked) + (if analytics then [selection] else [])
      ensures !cancelled ==>
        && overlayActive == old(overlayActive) && tracked == old(tracked)
        && notifications == old(notifications) && noticeHandles == old(noticeHandles)
    {
      cancelled := false;
      if !isEnabled {
        return;
      }
      if Utf16Length(selection) > SelectionLimit && !IsFormField(targetTag) {
        cancelled := true;
        ShowOverlay();
        ShowNotification(CopyNotice);
        if analytics {
          tracked := tracked + [selection];
        }
      }
    }

    /** `handlePaste` */
    method HandlePaste(targetTag: string) returns (cancelled: bool)
      requires Valid()
      modifies this`notifications, this`noticeHandles, this`nextNotice
      ensures Valid()
      ensures cancelled <==> old(isEnabled) && !IsFormField(targetTag)
      ensures notifications == if cancelled then [PasteNotice] else old(notifications)
      ensures !cancelled ==> noticeHandles == old(noticeHandles)
    {
      cancelled := false;
      if !isEnabled {
        return;
      }
      if !IsFormField(targetTag) {
        cancelled := true;
        ShowNotification(PasteNotice);
      }
    }

    /** The three `keydown` listeners, in order. */
    method HandleKeyDown(e: KeyEvent) returns (cancelled: bool)
      requires Valid()
      modifies this`notifications, this`noticeHandles, this`nextNotice
      ensures Valid()
      ensures cancelled == KeyDown(e).cancelled
      ensures notifications == if KeyDown(e).notices == [] then old(notifications) else [Last(KeyDown(e).notices)]
      ensures KeyDown(e).notices == [] ==> noticeHandles == old(noticeHandles)
    {
      cancelled := false;
      if (e.ctrlKey || e.metaKey) && e.key == "p" {
        cancelled := true;
        ShowNotification(PrintKeyNotice);
      }
      if e.key == "F12" || (e.ctrlKey && e.shiftKey && (e.key == "I" || e.key == "J" || e.key == "C")) || (e.ctrlKey && e.key == "u") {
        cancelled := true;
        ShowNotification(DevToolsKeyNotice);
      } else if (e.ctrlKey || e.metaKey) && e.key == "s" {
        cancelled := true;
        ShowNotification(SaveNotice);
      }
      if e.key == "ContextMenu" {
        cancelled := true;
      }
    }

    /** The `contextmenu` listener. */
    method HandleContextMenu(targetTag: string) returns (cancelled: bool)
      requires Valid()
      modifies this`notifications, this`noticeHandles, this`nextNotice
      ensures Valid()
      ensures cancelled <==> !IsFormField(targetTag)
      ensures notifications == if cancelled then [RightClickNotice] else old(notifications)
      ensures !cancelled ==> noticeHandles == old(noticeHandles)
    {
      cancelled := !IsFormField(targetTag);
      if cancelled {
        ShowNotification(RightClickNotice);
      }
    }

    /** The `beforeprint` listener. */
    method HandleBeforePrint()
      requires Valid()
      modifies this`notifications, this`noticeHandles, this`nextNotice
      ensures Valid() && notifications == [BeforePrintNotice]
    {
      ShowNotification(BeforePrintNotice);
    }

    /** One tick of the one-second `checkDevTools` poll. */
    method CheckDevTools(outerWidth: int, innerWidth: int, outerHeight: int, innerHeight: int)
      requires Valid()
      modifies this`notifications, this`noticeHandles, this`nextNotice
      ensures Valid()
      ensures notifications == if DevToolsSuspected(outerWidth, innerWidth, outerHeight, innerHeight)
        then [DevToolsDetectedNotice] else old(notifications)
      ensures !DevToolsSuspected(outerWidth, innerWidth, outerHeight, innerHeight) ==> noticeHandles == old(noticeHandles)
    {
      var widthThreshold := outerWidth - innerWidth > DevToolsThreshold;
      var heightThreshold := outerHeight - innerHeight > DevToolsThreshold;
      if widthThreshold || heightThreshold {
        ShowNotification(DevToolsDetectedNotice);
      }
    }

    /**
     * `touchstart`: outside form fields a new long-press timer is set and its handle replaces
     * `touchTimer`; an earlier timer stays set.
     */
    method HandleTouchStart(targetTag: string) returns (timer: Option<nat>)
      requires Valid()
      modifies this`touchTimer, this`armed, this`nextHandle
      ensures Valid()
      ensures timer.Some? <==> !IsFormField(targetTag)
      ensures timer.Some? ==>
        timer.value !in old(armed) && armed == old(armed) + {timer.value} && touchTimer == timer
      ensures timer.None? ==> armed == old(armed) && touchTimer == old(touchTimer)
    {
      timer := None;
      if IsFormField(targetTag) {
        return;
      }
      timer := Some(nextHandle);
      armed := armed + {nextHandle};
      touchTimer := timer;
      nextHandle := nextHandle + 1;
    }

    /** `touchend`: clears only the timer whose handle is in `touchTimer`. */
    method HandleTouchEnd()
      requires Valid()
      modifies this`armed
      ensures Valid()
      ensures armed == if touchTimer.Some? then old(armed) - {touchTimer.value} else old(armed)
    {
      if touchTimer.Some? {
        armed := armed - {touchTimer.value};
      }
    }

    /** A long-press timer fires after 500 ms: it shows its notice (its `preventDefault` comes too late to matter). */
    method LongPressElapsed(timer: nat)
      requires Valid() && timer in armed
      modifies this`armed, this`notifications, this`noticeHandles, this`nextNotice
      ensures Valid()
      ensures armed == old(armed) - {timer} && notifications == [LongPressNotice]
    {
      armed := armed - {timer};
      ShowNotification(LongPressNotice);
    }
  }

  function Last(s: seq<string>): string
    requires s != []
  {
    s[|s| - 1]
  }

  /**
   * The flag as toggled from the console through `window.copyProtection`: each call only
   * assigns, so the flag ends as the last call left it, however often each was repeated.
   */
  method ToggleFromConsole(p: CopyProtection, calls: seq<bool>)
    requires p.Valid()
    modifies p`isEnabled
    ensures p.Valid()
    ensures p.isEnabled == if calls == [] then old(p.isEnabled) else calls[|calls| - 1]
  {
    var i := 0;
    while i < |calls|
      invariant 0 <= i <= |calls|
      invariant p.Valid()
      invariant p.isEnabled == if i == 0 then old(p.isEnabled) else calls[i - 1]
    {
      if calls[i] {
        p.Enable();
      } else {
        p.Disable();
      }
      i := i + 1;
    }
  }
}

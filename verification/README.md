# Portfolio page behaviour, modelled in Dafny

This project models the client-side behaviour of a personal portfolio page. It has two
independent parts:

- The **interaction layer** (`script.js`):
  - the hero typewriter: a four-variable state machine that types, pauses, erases and
    moves to the next profession;
  - the active-link marker on the navigation links;
  - the choice of the active section from `scrollY + 100`;
  - the header's `scrolled` state and the header-height offset of smooth scrolls;
  - the mobile menu toggle and the two conditions that close it;
  - the routing of the call-to-action buttons;
  - the contact form's validation and the `mailto:` link it builds.
- The **copy-protection layer** (`copy-protection.js`):
  - the guards that cancel copy, cut, paste, selection, key, context-menu, drag and
    window-size events, with `INPUT`/`TEXTAREA` exempt everywhere;
  - the `CopyProtection` object: its enable flag, its overlay, its single-instance
    notification and its long-press timers.

This layer is friction, not security. Every guard is a page script that a visitor can switch off.

Files:

- `wrappers.dfy`: `Option`.
- `uri.dfy`: `encodeURIComponent` and `decodeURIComponent` as ECMA-262 (section 19.2.6)
  defines them. Characters outside the unreserved set become the UTF-8 octets of RFC 3629,
  percent-encoded as in section 2.1 of RFC 3986 with upper-case hex digits. The round trip is proved
  for every string.
- `contact.dfy`: the submit handler, the `mailto:` link (RFC 6068, section 2), and a parser
  that reads the `subject` and `body` fields back.
- `typewriter.dfy`: the step function `Next` and what each step writes (`Shown`), with the
  class `Typewriter`, whose `Step` updates the four variables in place. Lemmas cover the
  bounds, the prefix, the delay rule and a whole pass over the list.
- `navigation.dfy`: the class `Page` (the links as an array updated in a loop, the header
  flag, the menu classes, the body overflow) and the pure rules it uses.
- `protection.dfy`: the guard predicates, the three `keydown` listeners, and the class
  `CopyProtection`.

Environment values are parameters:

- scroll offsets, element tops and heights, the window sizes;
- whether a click lands inside the menu or the hamburger;
- the tag name of an event target and the focused element (`null` is `None`);
- whether `window.copyAnalytics` exists.

Returned values take the place of DOM effects:

- a delay for `setTimeout`;
- the markup written by the typewriter;
- a scroll target for `window.scrollTo`;
- a notice for a toast;
- a `mailto:` string for `window.open`.

## Model

| member | source | states |
|---|---|---|
| `Typewriter.Typewriter.constructor` | script.js:26-29 | The animation starts at the first profession with nothing typed, typing forward, speed 150. |
| `Typewriter.Typewriter.Step` | script.js:31-56 | One call of `typeWriter` changes the four variables exactly as `Next` does. It returns the markup `Shown` and the delay before the next call, which is the new `typingSpeed`. |
| `Typewriter.Next` | script.js:34-53 | Definition of one step: deleting moves `charIndex` back by one at speed 75, typing forward by one at speed 150. Completing the word switches to deleting at 2000. Erasing the last character switches to typing at 500 and advances the index modulo the list length. The index stays within the list. |
| `Typewriter.Shown` | script.js:37-41 | Definition of the markup a step writes: `"I'm a "`, the clamped `substring(0, charIndex - 1)` when deleting or `substring(0, charIndex + 1)` when typing, then the cursor span. |
| `Typewriter.Substring` | script.js:37-41 | `substring(0, end)` gives a prefix of the word; its length is `end` whenever `end` lies within the word. |
| `Typewriter.StartInv` | script.js:15-29 | When no profession is empty, the initial state satisfies the animation invariant. |
| `Typewriter.StepBounds` | script.js:34-53 | When no profession is empty, a step keeps `0 <= charIndex <= the word length` and `professionIndex < the list length`, and keeps the invariant. Deleting is entered only with at least one character shown. |
| `Typewriter.ShownIsPrefix` | script.js:37-43 | A step writes `"I'm a "`, then the first `charIndex` characters of the current word (the post-step value), then the cursor span. |
| `Typewriter.DelayRule` | script.js:36-53 | The step that completes the word, and only that step, switches to deleting: it waits 2000 and shows the whole word. The step that erases the last character, and only that step, switches back to typing: it waits 500 and advances to `(professionIndex + 1) modulo the list length`. Any other step waits 150 when typing and 75 when deleting, and moves `charIndex` by one. |
| `Typewriter.TypeOut` | script.js:40-48 | Typing from a prefix of length `c` reaches the full word, in the deleting phase, after exactly `the word length - c` steps. |
| `Typewriter.EraseWord` | script.js:36-52 | Deleting from a prefix of length `c` reaches the empty prefix of the next word after exactly `c` steps. |
| `Typewriter.WordCycle` | script.js:31-56 | One non-empty word takes exactly `2 * the word length` steps from its start to the start of the next word. |
| `Typewriter.CycleFrom` | script.js:15-56 | After one full pass over the list, the animation is back at the start of the first profession. So it cycles forever. |
| `Typewriter.ProfessionsNonEmpty` | script.js:15-23 | The site's list has seven entries and none of them is empty. |
| `Navigation.Page.constructor` | script.js:4-8 | The page starts with the given links and with the menu, hamburger and header flags cleared. |
| `Navigation.Page.UpdateActiveNavLink` | script.js:92-98 | The loop over the links leaves exactly `Marked(old links, id)`. |
| `Navigation.Marked` | script.js:92-98 | Definition of the links after `updateActiveNavLink(id)`: every link keeps its href and is `active` exactly when its href is `id`. |
| `Navigation.MarkedExactly` | script.js:92-98 | After marking, a link is `active` exactly when its `href` equals `id`, and hrefs are unchanged. When no link matches, no link is active. Only the last marking matters. |
| `Navigation.MarkedExactlyOne` | script.js:92-98 | With distinct hrefs and a link for `id`, exactly one link is active afterwards. |
| `Navigation.LastContaining` | script.js:113-126 | It finds the last section, in document order, with `top <= p < top + height`. No later section contains `p`. The result is `None` exactly when no section contains `p`. |
| `Navigation.Page.UpdateActiveNavFromScroll` | script.js:113-126 | Each containing section marks its link in turn, so the links end marked for the last section containing `scrollY + 100`. When no section contains it, the links are unchanged. |
| `Navigation.ScrollMarked` | script.js:113-126 | Definition of the links after `updateActiveNavFromScroll`: marked for the last section containing `scrollY + 100`, and unchanged when there is none. |
| `Navigation.Page.HandleScroll` | script.js:102-110 | The header carries `scrolled` exactly when `scrollY > 50` (strictly). A missing header is left alone. |
| `Navigation.IsScrolled` | script.js:105 | Definition of the header rule: the page counts as scrolled exactly when `scrollY > 50`. |
| `Navigation.HeaderHeight` | script.js:74 | `header?.offsetHeight \|\| 80` is positive. It is the header's height when that is non-zero, and 80 otherwise. |
| `Navigation.ScrollTarget` | script.js:74-75 | The scroll target lies above the element's top: by the header's height when that is non-zero, and by exactly 80 when the header is missing or has height 0. |
| `Navigation.Page.ToggleMobileMenu` | script.js:59-63 | The menu state becomes `Toggle` of the old state, for whichever of the menu and hamburger exist. |
| `Navigation.Toggle` | script.js:59-63 | Definition of `toggleMobileMenu`: the classes of the elements that exist flip, and the overflow becomes `hidden` when the menu exists and is now open, `auto` otherwise. |
| `Navigation.ToggleTwice` | script.js:59-63 | A toggle flips both `active` classes. Afterwards the body overflow is `hidden` exactly when the menu is open. Two toggles restore both classes, and restore the whole state once the overflow agrees with the menu. |
| `Navigation.Page.SmoothScroll` | script.js:66-89 | The click's default navigation is always cancelled. A scroll happens exactly when the href is present, starts with `#` and its element exists. The target is the element's top less the header height. The link is then marked and an open menu closed. Otherwise nothing changes. |
| `Navigation.Page.HandleResize` | script.js:297-304 | The menu is toggled shut only when `innerWidth >= 769` and it is open. After a resize that wide, it is closed. |
| `Navigation.ResizeCloses` | script.js:300 | Definition of the resize condition: the window is at least 769 wide and the menu is open. |
| `Navigation.Page.HandleDocumentClick` | script.js:240-246 | The menu is toggled shut only when it is open and the click lands in neither the menu nor the hamburger. |
| `Navigation.OutsideClickCloses` | script.js:241-243 | Definition of the outside-click condition: the menu is open and the target is inside neither the menu nor the hamburger. |
| `Navigation.Page.HandleButtonClick` | script.js:156-170 | The call-to-action button, or a button whose text includes "Contact", scrolls to `#contact` and marks its link, provided the section exists; otherwise it does nothing. Any other button whose text includes "Download CV" shows the CV notice. |
| `Navigation.Includes` | script.js:156-168 | Definition of `String.prototype.includes`: `t` occurs in `s` at some position, the empty string occurring everywhere. |
| `Navigation.Page.Init` | script.js:280-293 | Initialisation marks `#home` and applies the header rule for the current scroll offset. |
| `Contact.Submit` | script.js:251-276 | It is accepted exactly when name, email, subject and message are all present and non-empty; whitespace passes. A rejection shows the error notice "Please fill in all fields" and yields no link. An acceptance shows the success notice "Opening your email app…", waits 1000, and yields exactly `MailtoLink` of the subject and the "Name:/Email:/blank line/message" body. Its fields decode back to that subject and body. |
| `Contact.AllFilledFields` | script.js:257 | The required-field list of the model (name, email, subject, message) is filled exactly when each of the four fields the handler tests is present and non-empty. |
| `Contact.Filled` | script.js:257 | Definition of the truthiness test `data.key`: the field is present and not the empty string. |
| `Contact.AllFilled` | script.js:257 | Definition of validation: every required field (name, email, subject, message) is filled. |
| `Contact.Body` | script.js:268-270 | Definition of the message body: `"Name: "`, the name, a line break, `"Email: "`, the email, a blank line, then the message. |
| `Contact.MailtoLink` | script.js:264-271 | Definition of the link: the recipient and `?subject=`, the encoded subject, `&body=`, and the encoded body. |
| `Contact.MailtoLinkEscaped` | script.js:264-271 | The link is the fixed head, the encoded subject, `&body=` and the encoded body, and both encoded parts consist only of unreserved characters and `%XY` triplets. |
| `Contact.MailtoRoundTrip` | script.js:264-271 | The `mailto:` link addresses the site's recipient. Its `subject` and `body` fields decode to exactly the subject and body given, whatever characters they contain. |
| `Contact.QueryRoundTrip` | script.js:266-271 | The query splits at its first `&`, because an encoded subject contains none, and both halves decode back. |
| `Contact.IndexOf` | script.js:264-271 | A helper of the reference parser that reads the link back; it models no code of the page. It finds the first occurrence of a character, or `None` exactly when there is none. |
| `UriComponent.DecodeEncode` | script.js:266-271 | `decodeURIComponent(encodeURIComponent(s)) == s` for every string of Unicode scalar values. |
| `UriComponent.Encode` | script.js:266-267 | Definition of `encodeURIComponent`: unreserved characters are kept, and every other character becomes the `%XY` triplets of its UTF-8 octets. |
| `UriComponent.Decode` | script.js:266-267 | The reference partner of `Encode`: `decodeURIComponent`, which the page itself never calls. It fails on a malformed escape, a bad continuation octet, an overlong form, a surrogate or a value beyond U+10FFFF. |
| `UriComponent.DecodeEscapedUtf8` | script.js:266-271 | The percent-encoded UTF-8 octets of one character decode to that character, consuming exactly its `3 * octets` characters. |
| `UriComponent.EncodeWellEscaped` | script.js:266-271 | The encoder's output consists only of unreserved characters and `%XY` triplets with upper-case hex digits. |
| `UriComponent.WellEscapedAlphabet` | script.js:266-271 | A well-escaped string holds only unreserved characters and `%`, so no `&`, `=` or `?` can end a field early. |
| `UriComponent.Utf8` | script.js:266-267 | A character's UTF-8 form is 1 to 4 octets, and its first octet is below 0x80 exactly when it is a single octet. |
| `UriComponent.DecodeEscaped` | script.js:266-267 | Part of the reference decoder (`decodeURIComponent`), which the page itself never calls. A successful decode of one escape consumes at least one triplet and stays within the input. |
| `Protection.CopyProtection.constructor` | copy-protection.js:3-34 | It starts enabled, with the overlay created but not active, no notification shown, nothing tracked and no timer set. |
| `Protection.CopyProtection.Enable` | copy-protection.js:290-293 | It only assigns the flag to true. |
| `Protection.CopyProtection.Disable` | copy-protection.js:285-288 | It only assigns the flag to false. |
| `Protection.ToggleFromConsole` | copy-protection.js:285-298 | Any sequence of `enable()`/`disable()` calls leaves the flag as the last call set it. So the calls are idempotent, and any number of `disable()` calls followed by `enable()` leaves it true. |
| `Protection.CopyProtection.ShowNotification` | copy-protection.js:266-282 | It removes the first existing notification and then appends the new one, under a fresh handle. Afterwards exactly one notification exists, and its text is the message. |
| `Protection.CopyProtection.NotificationExpired` | copy-protection.js:278-281 | The removal timer, 3300 ms after a notification was shown, removes that node if it is still the one in the document. When a later notification has already replaced it, nothing changes. |
| `Protection.CopyProtection.ShowOverlay` | copy-protection.js:257-264 | The overlay becomes active. |
| `Protection.CopyProtection.HideOverlay` | copy-protection.js:27 | The "Understand" button, or the 3000 ms timer at lines 260-262, makes the overlay inactive. |
| `Protection.CopyProtection.HandleCopy` | copy-protection.js:221-242 | When the flag is set, the event is cancelled exactly when the selection is longer than 5 and the target is neither `INPUT` nor `TEXTAREA`. A blocked copy activates the overlay and leaves one notification, "🚫 Copying disabled". It passes the full selection to `trackCopy` only when analytics exist. Otherwise nothing changes. |
| `Protection.IsFormField` | copy-protection.js:226 | Definition of the exemption: the tag name is exactly `INPUT` or `TEXTAREA`. |
| `Protection.CopyBlocked` | copy-protection.js:226-228 | Definition of the copy guard: the selection's UTF-16 length exceeds 5 and the target is not a form field. |
| `Protection.CopyProtection.HandlePaste` | copy-protection.js:244-255 | The event is cancelled, with the paste notification, exactly when the flag is set and the target is not a form field. Otherwise nothing changes. |
| `Protection.Utf16Length` | copy-protection.js:224-228 | `selection.length` counts UTF-16 code units: between the number of characters and twice that. |
| `Protection.CopyThreshold` | copy-protection.js:221-230 | For basic-plane text, copy is blocked exactly when there are more than 5 characters outside a form field, so exactly 5 are allowed. Form fields are never blocked. |
| `Protection.AstralSelectionBlocked` | copy-protection.js:224-228 | Three characters beyond U+FFFF already count as length 6, so copying them is blocked. |
| `Protection.SelectionGuards` | copy-protection.js:43-94 | The 100 ms tick clears more than 5 characters unless a form field has focus. After `mouseup` the selection is cleared unless a form field has focus. `selectstart` is cancelled outside form fields, and `mousedown` only with Shift held outside form fields. |
| `Protection.TickClears` | copy-protection.js:43-57 | Definition of the 100 ms tick: it clears a selection longer than 5 unless the focused element is a form field. |
| `Protection.SelectStartCancelled` | copy-protection.js:62-70 | Definition: `selectstart` is cancelled outside form fields. |
| `Protection.MouseUpClears` | copy-protection.js:73-85 | Definition: 50 ms after `mouseup` the selection is cleared unless the focused element is a form field. |
| `Protection.MouseDownCancelled` | copy-protection.js:88-94 | Definition: `mousedown` is cancelled when Shift is held and the target is not a form field. |
| `Protection.DragGuard` | copy-protection.js:128-133 | `dragstart` is cancelled only for `A` and `IMG` (case-sensitive), never on a form field. |
| `Protection.DragStartCancelled` | copy-protection.js:128-133 | Definition: `dragstart` is cancelled exactly on `A` and `IMG` targets. |
| `Protection.DevToolsThresholdStrict` | copy-protection.js:208-216 | The window-size check fires exactly when a dimension differs by more than 160; exactly 160 does not fire. |
| `Protection.DevToolsSuspected` | copy-protection.js:209-216 | Definition of `checkDevTools`: the outer window exceeds the viewport by more than 160 in width or in height. |
| `Protection.KeyBlocking` | copy-protection.js:99-161 | These are cancelled with their one notice: F12, Ctrl+Shift+`I`/`J`/`C`, Ctrl+`u`, (Ctrl or Meta)+`s` and (Ctrl or Meta)+`p`. `ContextMenu` is cancelled with no notice. Nothing else is cancelled or notified. Meta alone does not trigger the developer-tools keys, and matching is case-sensitive. |
| `Protection.PrintKeyListener` | copy-protection.js:99-105 | Definition of the print listener: Ctrl or Meta with `p` is cancelled with the printing notice. |
| `Protection.ShortcutListener` | copy-protection.js:137-153 | Definition of the keyboard listener: the developer-tools keys are cancelled with their notice; failing those, Ctrl or Meta with `s` is cancelled with the saving notice. |
| `Protection.ContextMenuKeyListener` | copy-protection.js:156-161 | Definition: the `ContextMenu` key is cancelled, with no notice. |
| `Protection.KeyDown` | copy-protection.js:99-161 | Definition of the three listeners together, in attachment order: cancelled when any of them cancels, with their notices in order. |
| `Protection.CopyProtection.HandleKeyDown` | copy-protection.js:99-161 | The three listeners run in order. Cancellation is as `KeyDown` says, and the last notice shown is the only one left. |
| `Protection.CopyProtection.HandleContextMenu` | copy-protection.js:166-175 | The context menu is cancelled, with the right-click notice, exactly outside form fields. |
| `Protection.CopyProtection.HandleBeforePrint` | copy-protection.js:108-110 | `beforeprint` always leaves the watermark notice. |
| `Protection.CopyProtection.CheckDevTools` | copy-protection.js:208-218 | The poll leaves the detection notice exactly when `DevToolsSuspected` holds. Otherwise nothing changes. |
| `Protection.CopyProtection.HandleTouchStart` | copy-protection.js:178-188 | Outside form fields a fresh long-press timer is set and recorded in `touchTimer`. An earlier timer stays set. Inside form fields nothing changes. |
| `Protection.CopyProtection.HandleTouchEnd` | copy-protection.js:190-192 | It clears only the timer whose handle is in `touchTimer`. |
| `Protection.CopyProtection.LongPressElapsed` | copy-protection.js:184-187 | A timer that fires is no longer set, and it leaves the long-press notice. |

## Left out

- Real timers and the event loop are not modelled: `setTimeout`/`setInterval` chains, the
  100 ms scroll debounce and the 250 ms resize debounce. Delays are returned numbers. The
  debounced handlers are modelled as the callback that finally runs. The long-press timer
  is a set of armed handles, with the firing as an explicit method. A notification's removal
  timer is an explicit method too; the `active` class added after 100 ms and taken off at
  3000 ms (copy-protection.js:276-279) only animates the node and is not modelled.
- DOM rendering and I/O are not modelled: `innerHTML`, style assignments, the injected CSS
  (script.js:309-352), the social-icon hover styles, `window.scrollTo` animation,
  `window.open`, `FormData` (taken as a map from field name to string) and console logging.
- The toasts of script.js:174-211 are not modelled as nodes. Their message and kind are
  returned as a `Notice`.
- The ripple geometry (script.js:139-154) is not modelled: it is floating-point arithmetic
  on client rectangles.
- The loading-screen reveal (script.js:356-381) is not modelled: it is a fixed timer script
  with no logic beyond constant delays.
- The early return of `typeWriter` when the subtitle element is missing (script.js:32) is not
  modelled. With no element the animation is never started (script.js:281).
- These browser hacks are not modelled, because they have no statable behaviour:
  - the dev-tools probe through a getter on an image's `id` (copy-protection.js:197-205);
  - the `window.print` override with `alert` (copy-protection.js:113-117);
  - the hidden watermark node (copy-protection.js:120-123);
  - frame-busting through `window.top.location` (copy-protection.js:301-303);
  - the form-field style reset (copy-protection.js:306-316).
- The `copyAnalytics.trackCopy` collaborator is not modelled. Only whether it is called,
  and with what argument, is recorded.
- Lone surrogates are not modelled: strings are sequences of Unicode scalar values, so the
  `URIError` that `encodeURIComponent` throws on a lone surrogate cannot arise.
- Scroll offsets and element sizes are integers. Fractional `scrollY` values are not modelled.
- `document.querySelector(targetId)` is not modelled; its result is a parameter. For hrefs
  that are not valid selectors it can throw.
- Navigation.Page.SmoothScroll: does not model that `querySelector` may throw on an href
  such as `#` alone. The caller passes whether an element was found.
- Typewriter: `Substring`, `Next`, `Shown` and the cycle lemmas count characters (Unicode
  scalar values), while `substring` and `length` in script.js:37-46 count UTF-16 code units.
  They agree for the site's list, which is ASCII. For a word with a character beyond U+FFFF,
  the page takes two steps for that character and shows half of a surrogate pair in between,
  so `WordCycle`'s step count is one per character only for basic-plane words.

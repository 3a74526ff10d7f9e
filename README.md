# UInputManager: key injection through a Linux uinput device

This project models the key-injection core of the WPE WebDriver extension,
`src/webdriver/extension_wpe/uinput_manager.cc`, in Dafny and proves properties of
the model. The core has three parts.

- **Key translation (`lookup_code`).** A key identifier becomes a Linux physical key
  code plus a "shift required" flag. A tagged identifier is first reduced to its
  masked bits. A fixed set of ranges then decides the shift flag, and a large
  `switch` picks the key. An identifier with no case is returned unchanged. This is
  modelled as pure functions in `keymap.dfy`, with its properties in
  `keymap_properties.dfy`.
- **Event injection (`injectKeyEvent`, `injectSynEvent`).** One key request becomes
  one to four `input_event` writes, in this order:
  - a right shift with value 0, when the first byte of the text falls in the text's
    own shift ranges;
  - a left shift, when the translation asks for it;
  - the key itself;
  - a synchronisation, on release.

  `injection.dfy` gives the event sequence as a function, and the method in
  `uinput_manager.dfy` is proved to issue exactly those writes.
- **Device lifecycle.** This covers the lazy singleton, the constructor, the
  best-effort destroy, and `registerUinputDevice`. Registration is a chain of
  checked calls with early return: open, two `UI_SET_EVBIT`, the device record,
  284 unchecked `UI_SET_KEYBIT` calls (from `registerHandledKeys`), then
  `UI_DEV_CREATE`. `registration.dfy` describes the calls as a plan and defines a
  trace predicate over that plan. The class `UInput.UInputManager` issues the
  calls, and `UInputManager.RegisterUinputDevice` is proved to produce such a trace.

System calls are modelled in `syscalls.dfy`. Each call is a request appended to the
manager's call log together with the kernel's answer. The kernel is an arbitrary
function of the earlier calls and the request, so every statement holds for every
possible kernel behaviour. The kernel's constants (`KEY_*`, `EV_KEY`, `EV_SYN`,
`SYN_REPORT`, `BUS_USB`) have their values from `linux/input-event-codes.h` and
`linux/input.h` (`input_codes.dfy`). The 32-bit `int` and the 16-bit event code are
modelled explicitly in `words.dfy`, where the assignment `ev.code = keyCode`
truncates to 16 bits.

Three constants come from headers that are not part of this model:
`WD_NORMAL_KEY_IDENTIFIER`, `WD_NORMAL_KEY_MASK` and `KeyEvent::KeyRelease`. They
are parameters (`KeyTag`, `keyRelease`). Every lemma is stated for arbitrary values
of them, under the hypotheses it names. The hypotheses about them and about the key
identifier are: a mask that clears the tag, together with an identifier that lies
inside the mask (`TagIsTransparent`); a tagged identifier (`LookupTagged`); an
identifier with no case (`IdentityFallback`); an untagged identifier and a press
that is not a release (the example keystrokes).

Where the documented behaviour of the component and its code differ, the model
follows the code:
- The right-shift event written because of the text has value 0, because of the
  `memset`; it is not a press.
- `injectKeyEvent` does not look at the readiness flag.
- A failed write does not stop the later writes. The value returned is the result
  of the last write.
- `0x27` (the apostrophe) is typed as `KEY_GRAVE` with shift, which is a tilde on
  a US layout.
- The backquote `0x60` has no case and falls back to its own value, 96, which is
  `KEY_KPENTER`.

## Model

| member | source | states |
|---|---|---|
| Words.BitAndWithin | src/webdriver/extension_wpe/uinput_manager.cc:193 | the bits `keysym & WD_NORMAL_KEY_MASK` keeps are bits of both operands: AND-ing the result with either one leaves it unchanged |
| Words.Truncate16 | src/webdriver/extension_wpe/uinput_manager.cc:122 | storing an `int` key code into the 16-bit `code` field keeps it unchanged when it fits, and otherwise keeps it modulo 2^16 |
| Keymap.StripTag | src/webdriver/extension_wpe/uinput_manager.cc:192-194 | an untagged identifier is kept; a tagged one becomes a bit pattern whose every bit is set in both the mask and the original identifier (AND-ing it with either leaves it unchanged) |
| Keymap.InShiftRanges | src/webdriver/extension_wpe/uinput_manager.cc:197-206 | the ranges that raise the shift flag lie within printable ASCII, 0x21..0x7E |
| Keymap.SwitchCase | src/webdriver/extension_wpe/uinput_manager.cc:208-315 | every `case` is a printable ASCII character, 0x20..0x7E, and gives a typing key that is not a shift key |
| Keymap.Translate | src/webdriver/extension_wpe/uinput_manager.cc:197-315 | the shift flag is only ever raised; it is raised by the ranges only for identifiers that have a case; every case yields a typing key that is not a shift key; an identifier with no case translates to itself with the flag as it came in |
| Keymap.LookupCode | src/webdriver/extension_wpe/uinput_manager.cc:190-316 | an untagged identifier is translated unchanged |
| KeymapProperties.LettersIgnoreCase | src/webdriver/extension_wpe/uinput_manager.cc:262-313 | the i-th capital and small letter give the same letter key, A..Z in order; the capital sets shift and the small letter does not |
| KeymapProperties.LetterKeysDistinct | src/webdriver/extension_wpe/uinput_manager.cc:262-313 | the 26 letters are on 26 different keys |
| KeymapProperties.DigitsUnshifted | src/webdriver/extension_wpe/uinput_manager.cc:250-259 | '0'..'9' give KEY_0..KEY_9 without shift |
| KeymapProperties.ShiftFlagExactly | src/webdriver/extension_wpe/uinput_manager.cc:197-206 | starting from false, the flag is set if and only if the identifier is one of the shifted characters: the capitals, the shifted US symbols and the apostrophe |
| KeymapProperties.ShiftFlagOnlySet | src/webdriver/extension_wpe/uinput_manager.cc:197-206 | the caller's initial flag does not affect the key, and the result flag is the caller's flag or'ed with the table's own |
| KeymapProperties.SharedPhysicalKeys | src/webdriver/extension_wpe/uinput_manager.cc:210-245 | each of the 19 shifted symbols (':' ... ')') types its unshifted partner's key with shift, and the partner is typed without shift |
| KeymapProperties.IdentityFallback | src/webdriver/extension_wpe/uinput_manager.cc:314 | an identifier without a case gives itself and no shift |
| KeymapProperties.PrintableAsciiHasCase | src/webdriver/extension_wpe/uinput_manager.cc:208-315 | every printable ASCII character except the backquote has a case |
| KeymapProperties.ApostropheTypedAsTilde | src/webdriver/extension_wpe/uinput_manager.cc:216-233 | the apostrophe gives exactly what the tilde gives: KEY_GRAVE with shift |
| KeymapProperties.BackquoteFallsThrough | src/webdriver/extension_wpe/uinput_manager.cc:314 | the backquote falls back to 96, KEY_KPENTER, without shift |
| KeymapProperties.QuoteAndSpace | src/webdriver/extension_wpe/uinput_manager.cc:211-248 | the double quote gives KEY_APOSTROPHE with shift, as the code returns, not the 2 key its comment names; the space gives KEY_SPACE without shift |
| KeymapProperties.StripTagIdempotent | src/webdriver/extension_wpe/uinput_manager.cc:192-194 | stripping the tag twice is stripping it once |
| KeymapProperties.LookupTagged | src/webdriver/extension_wpe/uinput_manager.cc:192-194 | a tagged identifier translates as its masked bits, and as its stripped form |
| KeymapProperties.TagIsTransparent | src/webdriver/extension_wpe/uinput_manager.cc:192-194 | when the mask clears the tag, tagging an identifier that lies inside the mask leaves it a 32-bit value and does not change its translation |
| Injection.FirstChar | src/webdriver/extension_wpe/uinput_manager.cc:97 | the first byte of the text's NUL-terminated C string, the text followed by a zero byte; for an empty text this is the terminator |
| Injection.TextNeedsShift | src/webdriver/extension_wpe/uinput_manager.cc:101-106 | the text's shift ranges lie within printable ASCII, 0x21..0x7D |
| Injection.TranslatedWrites | src/webdriver/extension_wpe/uinput_manager.cc:101-131 | the number of events is one per present guard (text shift, translation shift, release) plus the key, and the key event sits right after the shifts, with the key's 16-bit code and value |
| Injection.KeyEventWrites | src/webdriver/extension_wpe/uinput_manager.cc:91-131 | one to four events, among them the key event of the translated identifier |
| Injection.WritesAsIssued | src/webdriver/extension_wpe/uinput_manager.cc:101-131 | issuing the event sequence is the code's chain of guarded writes: right shift if the text asks for it, left shift if the translation does, the key, then the synchronisation on release |
| Injection.InjectionCalls | src/webdriver/extension_wpe/uinput_manager.cc:85-134 | an injection appends one write per event, in order, and keeps the earlier log; its result is the kernel's answer to the last write |
| Injection.WritesInOrder | src/webdriver/extension_wpe/uinput_manager.cc:91-133 | 1 to 4 events: the right shift exactly when the text asks for it, the left shift with the key's value exactly when the translation does, the key always, the synchronisation exactly on release, in that order |
| Injection.SyncExactlyOnRelease | src/webdriver/extension_wpe/uinput_manager.cc:126-131 | the last event is a synchronisation if and only if the key is released, and every other event is a key event |
| Injection.ShiftValues | src/webdriver/extension_wpe/uinput_manager.cc:107-119 | a right-shift key event has value 0 unless the key itself translates to the right-shift code (an identifier with no case falls back to itself, and the 16-bit store can wrap it to 54: 0x10036 does), and the left-shift event carries the key event's value |
| Injection.RightShiftByWrapAround | src/webdriver/extension_wpe/uinput_manager.cc:114-123 | pressing the untagged identifier 0x10036, which has no case, writes one key event whose code has wrapped to 54, KEY_RIGHTSHIFT |
| Injection.TextShiftWithinLookupShift | src/webdriver/extension_wpe/uinput_manager.cc:101-106 | the text ranges are the table's shift set minus exactly the apostrophe, ':' and '~' |
| Injection.PressCapitalA | src/webdriver/extension_wpe/uinput_manager.cc:85-134 | pressing "A" writes the right shift (value 0), the left-shift press and the A press, with no synchronisation |
| Injection.ReleaseCapitalA | src/webdriver/extension_wpe/uinput_manager.cc:85-134 | releasing "A" writes the same three events with the release value, then the synchronisation |
| Injection.PressDigitFive | src/webdriver/extension_wpe/uinput_manager.cc:85-134 | pressing "5" writes the KEY_5 press alone |
| Registration.HandledKeysAre | src/webdriver/extension_wpe/uinput_manager.cc:136-169 | the registered codes are exactly 0..255 and the 28 extended codes |
| Registration.HandledKeys | src/webdriver/extension_wpe/uinput_manager.cc:136-169 | 284 key codes, in registration order |
| Registration.HandledKeysDistinct | src/webdriver/extension_wpe/uinput_manager.cc:138-168 | no code is registered twice |
| Registration.KeyBitRequests | src/webdriver/extension_wpe/uinput_manager.cc:136-169 | the 284 `UI_SET_KEYBIT` requests, in order, are steps 3..286 of the registration plan |
| Registration.RegisterRun | src/webdriver/extension_wpe/uinput_manager.cc:37-83 | a registration keeps the earlier log and starts with the open, whose result is the descriptor; it returns true only on a descriptor after the whole plan of 288 further calls |
| Registration.SetupRun | src/webdriver/extension_wpe/uinput_manager.cc:49-82 | the plan from step i on keeps the descriptor and the earlier log and issues at least one and at most the remaining steps; it succeeds only after issuing all of them |
| Registration.RegistrationSucceedsIff | src/webdriver/extension_wpe/uinput_manager.cc:37-83 | a registration succeeds if and only if the open, both event-bit calls, the device record and the creation all succeed; the whole plan has then been issued |
| Registration.EarlyFailureRegistersNoKeys | src/webdriver/extension_wpe/uinput_manager.cc:43-72 | a failed open issues nothing more; a run stops before the key bits exactly when one of the first four calls fails, and then no key bit is set |
| Registration.FullPlanRegistersEveryKey | src/webdriver/extension_wpe/uinput_manager.cc:73-75 | a run that went through the whole plan set every handled key bit, in order, on the opened descriptor, and ended with the creation |
| Registration.KeyBitResultsIgnored | src/webdriver/extension_wpe/uinput_manager.cc:136-169 | changing the results of the unchecked calls leaves the outcome of the trace unchanged |
| Registration.RegisterRunTrace | src/webdriver/extension_wpe/uinput_manager.cc:37-83 | a registration against any kernel keeps the earlier log; its descriptor is the open's result; its calls form a registration trace with its return value as the outcome |
| Registration.SetupRunTrace | src/webdriver/extension_wpe/uinput_manager.cc:49-82 | after successful checked steps, the rest of the plan extends them to a setup trace |
| UInput.UInputManager.constructor | src/webdriver/extension_wpe/uinput_manager.cc:26-30 | descriptor 0, not ready, no calls issued, no registration attempted |
| UInput.UInputManager.Syscall | src/webdriver/extension_wpe/uinput_manager.cc:41-75 | each `open`, `ioctl` and `write`: one call appended to the log with the kernel's answer, which is returned |
| UInput.UInputManager.RegisterUinputDevice | src/webdriver/extension_wpe/uinput_manager.cc:37-83 | the log, descriptor and return value are those of the registration run; the device becomes ready exactly when it succeeds, and stays as it was otherwise; the outcome is appended to the history of registration attempts |
| UInput.UInputManager.RegisterHandledKeys | src/webdriver/extension_wpe/uinput_manager.cc:136-169 | the two loops issue exactly the 284 key-bit requests, in order |
| UInput.UInputManager.IsReady | src/webdriver/extension_wpe/uinput_manager.cc:171-173 | ready if and only if some registration attempt has succeeded |
| UInput.UInputManager.InjectKeyEvent | src/webdriver/extension_wpe/uinput_manager.cc:85-134 | the log grows by one write per event of the key's event sequence, in order, and the result is the last write's |
| UInput.UInputManager.InjectSynEvent | src/webdriver/extension_wpe/uinput_manager.cc:175-188 | one synchronisation write, whose result is returned |
| UInput.UInputManager.Destroy | src/webdriver/extension_wpe/uinput_manager.cc:32-35 | one `UI_DEV_DESTROY` on the current descriptor, result ignored |
| UInput.Process.constructor | src/webdriver/extension_wpe/uinput_manager.cc:17 | no instance yet |
| UInput.Process.GetInstance | src/webdriver/extension_wpe/uinput_manager.cc:19-24 | the first call creates a fresh, not yet registered manager; every later call returns that same object |

## Left out

- Logging (`printf`, `Logger::Log`) and the logger object: they have no effect on the device.
- `gettimeofday`: event timestamps are not modelled, because they do not affect which events are written or in what order.
- The real effect of `open`, `ioctl` and `write`: the kernel is an arbitrary function of the call history, so the results the kernel returns are not constrained.
- The `open` flags and modes, and the byte layout of `uinput_user_dev`: the device record keeps only its bus type, version and name.
- The `KeyEvent` class is not part of this model. Its `key()`, `type()` and the bytes of `text()` are plain inputs, and a text's first byte is modelled as an `int` in 0..255.
- `WD_NORMAL_KEY_IDENTIFIER`, `WD_NORMAL_KEY_MASK` and `KeyEvent::KeyRelease` are parameters, because their values are not available.
- UInput.UInputManager.Destroy: the destructor is a method the caller invokes. Freeing the object and the logger is not modelled.
- UInput.Process: the static `_instance` variable is a field of a process object, not a global.
- Concurrency: the code and the model are single-threaded.

# Philomena Imgur Embed, modelled in Dafny

The user script adds an "upload and insert image" button to the comment
toolbar of Philomena image boards. A click on the button does four things in
order:

1. It opens a file picker.
2. It reads the chosen image as a base64 data URL.
3. It posts the image to Imgur.
4. It splices a markup link to the hosted image into the comment box, at the
   selection.

The button shows an idle, a loading or an error glyph. While an upload is in
flight the button is disabled. A failure marks it `danger` for good.

The model covers three pieces of pure logic from both builds of the script:
the compiled `imgur-embed.user.js` and the older `src/main.ts`.

- `Whitespace` and `TextInsert` model `insertString`. The whitespace runs are
  what `/^\s*/` and `/\s*$/` match inside the selection. The splice is
  `before + leading + new + trailing + after`, and the caret ends up collapsed
  right after the new string.
- `SiteSyntax` models the `boorus` table, the host lookup `getSiteSyntax` and
  the formatter `wrapLink`.
- `Upload` models two things. The first is the `split(',')[1]` payload
  extraction of `getBase64`. The second is how `uploadFile`'s promise settles
  for a given reply, including "first settlement wins".
- `ButtonMachine` models `setIcon` and `buttonClickHandler` as a transition
  system. Its state is the button (glyph, `disabled`, `danger`), the
  handler's await point, the comment box, the uploads sent and the errors
  re-thrown. Its events are the answers the handler awaits: a click, the
  picker closing with or without a file, the file read, and the upload reply.
  There is one more event: the user editing the comment box. It can happen at
  any time, because the handler reads the box's value and selection only when
  it inserts the link.
  `Variant` selects the build: the user script looks the page's host up, and
  the TypeScript source always writes Textile.

The page host, the picker's result, the data URL and the upload reply are
inputs: parameters or events. So is the comment box's content, through the
edit event.

`wrapLink`, and with it the host lookup, runs only after `uploadFile` has
resolved (`imgur-embed.user.js:170-172`). So on an unrecognised host the
image is uploaded anyway, and the click then ends in the error state
(`ButtonMachine.UnknownHostUploadsThenFails`).

## Model

| member | source | states |
|---|---|---|
| Whitespace.LeadingWhitespace | imgur-embed.user.js:124 | the match of `^\s*` is a prefix of the selection, is all whitespace, and is followed by a non-whitespace character or by the end |
| Whitespace.TrailingWhitespace | imgur-embed.user.js:125 | the match of `\s*$` is a suffix of the selection, is all whitespace, and is preceded by a non-whitespace character or by the start |
| Whitespace.LongestPrefixUnique | src/main.ts:66 | any longest whitespace prefix equals the leading run, so the characterisation pins the regex result down |
| Whitespace.LongestSuffixUnique | src/main.ts:67 | any longest whitespace suffix equals the trailing run |
| Whitespace.MatchTrailingWhitespace | imgur-embed.user.js:125 | a single scan that tracks the end of the last non-whitespace character returns the trailing run; no earlier index starts an all-whitespace tail, so this is the leftmost match a regex engine reports for `\s*$` |
| Whitespace.AllWhitespaceRuns | imgur-embed.user.js:124-125 | for an all-whitespace selection, both runs are the whole selection |
| Whitespace.RunsDisjoint | imgur-embed.user.js:123-125 | if the selection holds a non-whitespace character, the two runs do not overlap, and the selection is leading run + core + trailing run |
| TextInsert.InsertString | imgur-embed.user.js:120-131 | the new field is well-formed, its selection is collapsed, and the caret lies at least the new string's length past the old start, with the whole old suffix after it |
| TextInsert.InsertStringLayout | imgur-embed.user.js:126-130 | for any longest whitespace prefix `lead` and longest whitespace suffix `trail` of the selection (what `^\s*` and `\s*$` match), the new value is text before + `lead` + new string + `trail` + text after, and the caret is at start + `|lead|` + new length |
| TextInsert.InsertKeepsOutside | src/main.ts:68-71 | every character before the selection keeps its index; every character after it keeps its place, shifted by the length change; the new string ends at the caret |
| TextInsert.InsertKeepsSelectionEdges | src/main.ts:65-70 | the text between the untouched prefix and the new string is the selection's leading whitespace run; the text between the new string and the untouched suffix is its trailing run |
| TextInsert.InsertAtCaret | imgur-embed.user.js:123-130 | with a collapsed selection the splice is a plain insertion at the caret, and the caret moves to start + new length |
| TextInsert.InsertOverWhitespace | imgur-embed.user.js:123-128 | an all-whitespace selection appears twice in the output, once on each side of the new string |
| TextInsert.ReinsertCoreRestores | imgur-embed.user.js:123-128 | when the selection holds a non-whitespace character, inserting its core (the selection minus its whitespace runs) gives back the original value: the splice replaces exactly the core |
| TextInsert.InsertTwice | imgur-embed.user.js:128-130 | inserting `a` and then `b` equals inserting `a + b` in one go, because the first call leaves a collapsed caret right after `a` |
| SiteSyntax.FindSyntax | imgur-embed.user.js:58-64 | the lookup fails with "Unable to match domain" exactly when no entry lists the host; otherwise it returns the syntax of the first entry that lists it |
| SiteSyntax.GetSiteSyntax | imgur-embed.user.js:58-63 | the site lookup succeeds exactly when some entry of the table lists the host |
| SiteSyntax.LookupFindsServingEntry | imgur-embed.user.js:60-62 | in a table whose domain lists are disjoint, the lookup returns the syntax of whichever entry lists the host |
| SiteSyntax.LookupOrderIndependent | imgur-embed.user.js:60-62 | if the domain lists are disjoint, the lookup gives the same answer for every visiting order of the entries |
| SiteSyntax.BoorusDisjoint | imgur-embed.user.js:34-51 | the script's table lists every host under one entry only |
| SiteSyntax.GetSiteSyntaxMatchesMap | imgur-embed.user.js:34-64 | the ordered lookup agrees with a host-to-syntax map built independently from the table, including failure for hosts missing from the map |
| SiteSyntax.WrapLink | imgur-embed.user.js:65-72 | Textile markup starts and ends with `!`; Markdown markup starts with `![](` and ends with `)`; the lengths are link + 2 and link + 5 |
| SiteSyntax.UnwrapWrap | imgur-embed.user.js:67-70 | the link can be read back from the markup in both dialects |
| SiteSyntax.WrapUnwrap | imgur-embed.user.js:67-70 | every text the reader accepts is the markup of the link it reads |
| SiteSyntax.DialectsDistinct | imgur-embed.user.js:66-71 | Textile and Markdown markup never coincide, whatever the links |
| SiteSyntax.WrapLinkForHost | imgur-embed.user.js:65-72 | for a host in the table, the link is wrapped in that host's dialect; for any other host, the domain error is thrown |
| Upload.Split | imgur-embed.user.js:116 | the pieces of `split(',')` contain no comma, joining them with commas gives the input back, and there is a single piece exactly when the input has no comma |
| Upload.SplitJoin | imgur-embed.user.js:116 | splitting a comma-join of comma-free pieces gives the pieces back |
| Upload.Base64Payload | src/main.ts:57 | the payload is absent (`undefined`) exactly when there is no comma; otherwise it is the comma-free text from just after the first comma up to the next comma or the end |
| Upload.PayloadOfDataUrl | imgur-embed.user.js:113-116 | for `data:<mime>;base64,<payload>` with no comma in the MIME type or the payload, the result is exactly the payload |
| Upload.LaterCallsIgnored | src/main.ts:96-97 | once a promise is settled, later `resolve`/`reject` calls change nothing, so the `reject` that runs before `resolve` wins |
| Upload.UploadFile | src/main.ts:94-99 | a body with status 200 and a `data` object yields its link; any other status rejects with "unexpected status code", even when `data` is missing; a transport error rejects with that error; the promise stays pending exactly when the body did not parse or has status 200 and no `data` |
| Upload.UploadSucceedsIff | imgur-embed.user.js:149-154 | the upload yields a link exactly when a body parsed with status 200 and a `data` object, and the link is that body's `data.link` |
| Upload.SuccessFlagIgnored | imgur-embed.user.js:150-152 | the body's `success` flag does not affect the outcome |
| ButtonMachine.IconClasses | src/main.ts:38-50 | every state maps to a Font Awesome glyph |
| ButtonMachine.IconClassesDistinct | imgur-embed.user.js:98-110 | two states share a glyph only if they are the same state |
| ButtonMachine.Embed | src/main.ts:121 | the TypeScript build always writes Textile; the user script writes the dialect of the host's map entry, or throws the domain error for an unknown host |
| ButtonMachine.Step | imgur-embed.user.js:159-180 | every transition, the user's edits included, keeps the comment box's selection well-formed; the sent uploads and the re-thrown errors are append-only logs, each growing by at most one entry per event |
| ButtonMachine.InitInv | imgur-embed.user.js:184-188 | a freshly injected button is idle and enabled, satisfying the invariant |
| ButtonMachine.StepInv | imgur-embed.user.js:165-179 | every event keeps the invariant: the button is idle+enabled, loading+disabled, or error+disabled+danger, as the await point dictates, and an error was raised exactly when it is broken |
| ButtonMachine.RunInv | src/main.ts:113-128 | the invariant holds after any sequence of events |
| ButtonMachine.ClickOpensPicker | imgur-embed.user.js:159-165 | a click on an idle, enabled button starts the picker and changes nothing else |
| ButtonMachine.CancelChangesNothing | src/main.ts:113-114 | a click whose picker is cancelled leaves the whole state as it was: button idle and enabled, no upload sent |
| ButtonMachine.ChosenFileDisables | src/main.ts:116-117 | once a file is chosen, the button is disabled and shows the spinner |
| ButtonMachine.ReadSendsOneUpload | imgur-embed.user.js:170-171 | reading the file sends exactly one upload, carrying the data URL's payload and the file's name |
| ButtonMachine.SuccessInsertsAndResets | imgur-embed.user.js:171-174 | a link that embeds cleanly is spliced into the comment box, and the button becomes idle and enabled |
| ButtonMachine.FailureBreaksButton | imgur-embed.user.js:175-178 | a rejection or an embedding error gives error glyph + `danger` + still disabled, re-throws the error, and leaves the comment box untouched |
| ButtonMachine.FieldChangesOnlyOnSuccess | src/main.ts:118-123 | apart from the user's own edit, only an upload reply that ends the handler successfully changes the comment box |
| ButtonMachine.EditReplacesField | imgur-embed.user.js:121-122 | a well-formed edit replaces the comment box whatever the handler awaits, and changes nothing else |
| ButtonMachine.EditDuringUploadIsUsed | imgur-embed.user.js:121-128 | the link is inserted into the box as it stands when the reply arrives: an edit made during the upload is where the link goes |
| ButtonMachine.HungIsStuck | imgur-embed.user.js:149-152 | a handler awaiting a promise that can no longer settle ignores every later event; only the user's edits still change the comment box |
| ButtonMachine.UnsettledReplyHangs | src/main.ts:94-97 | a reply whose body did not parse, or that has status 200 but no `data`, leaves the button loading and disabled forever, with no error raised |
| ButtonMachine.BrokenIsTerminal | src/main.ts:124-127 | from the error state, no sequence of events changes anything but the user's edits to the comment box, because the broken button stays disabled |
| ButtonMachine.UploadClickSends | imgur-embed.user.js:165-171 | a full click on an idle button sends one upload, then handles the reply from the loading state |
| ButtonMachine.TypeScriptInsertsTextile | src/main.ts:119-123 | in the TypeScript build, a status 200 reply inserts `!link!` and resets the button, whatever the site |
| ButtonMachine.UnknownHostUploadsThenFails | imgur-embed.user.js:170-178 | on an unknown host the image is still uploaded, then the click ends broken with "Unable to match domain" and the comment box untouched |
| ButtonMachine.KnownSiteInsertsMarkup | imgur-embed.user.js:170-174 | on every listed host, a status 200 reply inserts the link in that host's dialect at the selection and resets the button |
| ButtonMachine.BadStatusBreaksButton | src/main.ts:94-98 | a reply with any status but 200 ends the click broken with "unexpected status code" and the comment box untouched |

## Left out

- The toolbar hook (`NodeCreationObserver`), the DOM queries (`$`, `closest`, `after`), the button's markup, `tabIndex` and `title`: these are DOM plumbing. Only the new button's initial state (`NewButton`) is modelled, and glyphs are class-name strings.
- `GM_xmlhttpRequest`, the `FormData`/`Response` multipart body, the `Authorization` and `Content-Type` headers, `CLIENT_ID` and `API_ENDPOINT`: network I/O. An upload is recorded as a payload plus file name. The reply is an input: a transport error, or a load with a parsed or unparsed JSON body.
- The `image` form field's content and the rule that `name` is sent only for a non-empty file name are part of the multipart body and are not modelled.
- `getFile` and `FileReader`: browser I/O. The picker's answer is the `PickerClosed` event (`None` when no file was chosen). The reader's answer is the `FileRead` event. A read that fails never fires `onload`, so no event arrives and the handler keeps waiting.
- `e.preventDefault()`, `e.stopPropagation()` and `textarea.focus()`: they have no effect on the modelled state.
- ButtonMachine.Step: a click that arrives while the file picker is open is ignored. In the script the button is still enabled then, so such a click would start a second, independent handler. The model keeps one handler per button.
- Upload.UploadFile: it models a body's `data` object as either absent or carrying a `data.link` string. An absent `data` with status 200 makes `onload` throw before settling, so the promise stays pending; the model has that case. A `data` object without `link` is not modelled: the script would resolve with `undefined` and insert the text `undefined`.
- TextInsert.InsertString: offsets count characters, whereas the browser counts UTF-16 code units. The two differ only for characters outside the Basic Multilingual Plane.
- Whitespace.IsWhitespace: it is a fixed list of the code points that ECMAScript's `\s` matches (WhiteSpace and LineTerminator). The runtime's own Unicode tables are not modelled.
- `window.location.host` is an input string. It is compared by exact equality, as `indexOf` does, so a subdomain or a host with a port fails the lookup.
- types/Imgur.ts and types/NodeCreationObserver.d.ts declare types only and have no behaviour.

# UC Talk: what the code promises, proved

The repository connects WhatsApp numbers to the Contact Center of Bitrix24 portals. Many customers
share one installation, several workers handle the same message, and the remote systems fail at any
point. This project models the parts of the Go code where those three facts meet, and proves what
they keep.

| module | what it models |
|---|---|
| `Remote` | a call whose answer may be lost, with or without effect |
| `Text`, `Base64` | the parts of Go's `strings`, `strconv` and `encoding/base64` that the rest needs |
| `Cookies`, `Identity` | the three signed cookies, their legacy forms, and the gate that uses them |
| `LoginLimiter` | the brute-force limiter, alone, in its route, and with concurrent requests |
| `BBCode` | the conversion of the operator's text |
| `Confirmation` | the delivery-confirmation rendezvous, command by command, with faults |
| `Dedup`, `Inbound` | set-if-absent marks with a time limit, and the inbound handler built on them |
| `Jid` | the functions that reduce a session id to a number |
| `Bodies` | one request body as the scoping middleware and as the handlers read it |
| `Tenants` | requests of the portals over accounts and pairings |
| `TenantRights` | what a portal can do, and all that one of its requests does |
| `TenantRuns` | runs of those requests, with restarts and lapsing pairings |
| `TenantsInFlight` | the same requests with the decision and its effect as two steps |
| `ConnectorEvents` | the connector event, from origin checks to the outbound queue |
| `Reconciliation` | publishing connectors on a remote that may fail at every call |
| `Alerts`, `Licences` | the e-mail jobs, over the history of their rounds |
| `Xml`, `ExportXml`, `ExportXlsx` | the exported report as XML and as a spreadsheet, and an XML reader |
| `DataUri` | the file an operator uploads, embedded in a job and taken out again |
| `History` | the in-place sort of a CRM conversation |

Code that updates state is a class or a method over arrays, with its state written out in its
contract; the properties over many steps are lemmas about the functions those contracts use.

Randomness, clocks, the network and the stores appear as parameters. A command to Redis, to the
database, to Bitrix or to the mail server may fail, with or without having taken effect. The HMAC is
a parameter `mac`: it prints hexadecimal digits (`HexTags`), and where a verifier recomputes a tag and
finds it in the cookie, one of the three signers issued a tag for that very message (`Unforgeable`).
Only the at most five messages that the branches of the verifiers recompute from the cookie at hand
are meant, so nothing is asked of strings no verifier looks at. `Cookies.CollisionFreeIsUnforgeable`
derives the assumption from the usual one: the cookie ends in a tag that was issued, and none of those
messages shares a tag with another message that was issued.

## Where the code and its comments part

- The middleware that confines a portal to its numbers reads a body only when its content type holds
  the exact text "application/json", and looks names up as they are spelled
  (`internal/api/tenant_isolation.go:383-412`). The handlers use Fiber's `BodyParser`, which also takes
  forms, multipart and XML, compares content types in lower case, and matches JSON names in any case.
  A request that stores an account keeps to its portal, and keeps one owner per number, exactly when
  what its handler decodes is what the middleware checked (`StoreIsolatedIff`, `OneOwnerIff`); a JSON
  body with the two names spelled exactly always does (`AlikeIsAligned`). A form, or JSON with
  "Session_jid", does not (`FormIsNotAligned`, `CapitalIsNotAligned`), and takes over the account that
  another portal has paired and stored by ordinary requests (`UnreadChangesOthers`).
- The owner check and the registration of a pairing are two steps (`internal/api/ui.go:47-56`), as are
  the other decisions and their effects. One owner per number holds in every interleaving exactly when
  requests do not overlap (`OneOwnerIffSerial`).
- The mark of an inbound message is set before anything is delivered (`cmd/server/main.go:901-911`) and
  stays when the push to the queue fails, so the retry is set aside and the content is lost; a link
  post that takes effect without an answer is followed by the queue, and the content arrives twice.
  `ContentLostIff` and `DeliversLikeFirst` say exactly when, `FailedPushThenSetAside` shows an input.
- Neither deduplication key of a connector event holds the portal, and both are set before ownership
  and origin are looked at (`internal/api/handlers.go:1220-1242`). An event of one portal, forged or
  not, can take the place of another portal's answer; `SuppressesIff` says exactly when, from any marks.
  A mark that is found is not renewed, so a third event may be answered where the second was not
  (`FoundIsNotRenewed`).
- The comment over `GuardarConfirmacao` says a delivery is never confirmed twice nor lost
  (`internal/queue/confirmacao.go:46-48`). Without faults and within the time limits it is so. When a
  command of the worker fails, the worker confirms on its own (`cmd/server/main.go:409-415`). In any
  run whatever a message is confirmed once for each failed command of the worker, and once more exactly
  when the first step to remove the entry after it was stored is a GETDEL that got its answer
  (`ConfirmedExactly`). So it is confirmed twice exactly when both happen (`WorkerFaults` says after
  which command that can be), and lost exactly when the worker's commands work and the entry lapses, its
  GETDEL loses the answer, or nobody takes it: the receipt's command failed (`FailedReceiptWaits`), or
  its ten-minute mark lapsed before the worker looked (`ExpiryCanLose`).
- `DELETE FROM bitrix_accounts` compares user parts without trimming, `numeroBase` trims. A JID whose
  user part is empty, ends in white space, or is the word "cloud" after white space reaches rows of
  another number; on all others the two agree (`DeleteStaysInNumberIff`). The middleware refuses a JID
  that has no number at all, so the requests keep to their portal exactly for those others and for JIDs
  without a number (`DeleteIsolatedIff`).
- `sqlNumeroBase` is said to mirror `numeroBase`, but drops every leading "+" while `numeroBase`
  drops one. An account stored under "++55..." does not keep a second portal from pairing its number
  once the owner's own pairing has lapsed; from the empty state, ownership survives all runs over such a
  JID exactly when the two forms agree (`OwnershipIffFormsAgree`, `TakeoverSucceeds`, `TwoPluses`).
- The five failures per window hold for requests served one after another; with `n` in flight the
  count reaches `4 + n`, so five is kept exactly when `n` is 1 (`FiveKeptIffSerial`).
- A rate-limited address is written to the persistent block list, so the fifteen minutes end the
  lock of the limiter but not that of the route (`LimitedStaysOut`).
- The conversion of BBCode is announced as case-insensitive, and bold, italic and struck text are; the
  line break is converted exactly when it is spelled `[br]`, and in any other case is dropped with the
  other brackets, so that the lines run together (`BreakConvertsIff`).
- The text an operator types after a `[` is dropped exactly when the converted text leaves that bracket
  open, and is otherwise kept as it is (`RestLostIff`).
- A licence is marked before its e-mail is sent. When the insert of the mark takes effect without an
  answer, or when the e-mail and the delete of the mark both fail, that notice is never sent; an e-mail
  that arrives although its call failed may be sent again (`MarksAreDeliveriesIff`,
  `Licences.LostInsertSilences`, `UnseenRepeats`). The alerts about sessions share the two faults,
  for the length of their window: a round notes exactly the numbers it mails about if and only if
  neither happens to a number it warns about (`NotedAreMailedIff`, `Alerts.LostInsertSilences`,
  `UnseenLeavesNoTrace`).
- A licence lapses a second before midnight, and the days are cut toward zero, so on the day after the
  due date the notice says it lapsed 0 days ago (`NoticeByCalendar`).
- A round of the session alerts looks at the first row of a number only. If that one has no portal, a
  second row that has one does not get the number reported (`MailedIff`).
- A cell that reads as a 64-bit decimal is stored as a number, so a telephone printed with "+" loses
  it (`ShownAsGivenIff`, `PhoneLosesPlus`).
- An uploaded file whose media type holds a comma reaches the worker as no bytes at all
  (`DataUri.RoundTripIff`).
- CRM messages that share a numeric id, as all unparsable ids do, come out in the order of a map
  iteration (`OrderIsInvisibleIff`).

## Model

| member | source | states |
|---|---|---|
| Text.SplitJoin | internal/api/admin.go:251-296 | The payload format is unambiguous exactly when no field holds the separator: joined fields split back into themselves iff none does. |
| Text.JoinSplit | internal/api/crm_identidade.go:42-65 | Cutting a raw cookie at its separators loses nothing, and no piece holds a separator. |
| Text.ParseFormat | internal/api/admin.go:153-195 | An expiry printed in decimal parses back to the same 64-bit number. |
| Text.AsciiSpaces | internal/api/handlers.go:1804-1807 | Of ASCII exactly the tabulator, the four line ends and the space are trimmed. |
| Base64.RoundTrip | internal/api/crm.go:2033-2035 | Decoding an encoded byte sequence gives it back, padded (section 4 of RFC 4648) and URL-safe unpadded (section 5). |
| Base64.EncodedCharacters | internal/api/crm_identidade.go:34-40 | The encoded user name never holds the field separator of the cookie. |
| Cookies.TenantRoundTrip | internal/api/admin.go:153-195 | A signed tenant cookie is accepted until it expires and returns its domain, for every domain, even one that holds the separator. |
| Cookies.AdminRoundTrip | internal/api/admin.go:241-296 | A signed administrator cookie is accepted until it expires exactly when e-mail and role hold no separator. |
| Cookies.UserRoundTrip | internal/api/crm_identidade.go:34-65 | A signed user cookie is accepted until it expires exactly when domain and id are non-empty and free of the separator; the name may be any byte sequence. |
| Cookies.TenantAuthentic | internal/api/admin.go:169-195 | With tags of any of the three signers in circulation, the tenant verifier accepts exactly the unexpired tenant cookies that were issued, for the domain they were issued for; the HMAC is asked about the recomputed messages only. |
| Cookies.AdminAuthentic | internal/api/admin.go:251-296 | The same for administrator cookies: exactly the issued, unexpired ones with usable fields, and with those fields. |
| Cookies.UserAuthentic | internal/api/crm_identidade.go:42-65 | The same for user cookies: domain, id and name come back exactly as issued. |
| Cookies.PreimagesDisjoint | internal/api/admin.go:153-296 | No two different cookies, of whatever kinds, are signed over the same text: the prefixes `v2:`, `user-v2:` and none never overlap. |
| Cookies.LegacyAcceptsNothing | internal/api/admin.go:169-296 | The dotted legacy formats accept no tag in circulation. |
| Cookies.LegacyExactly | internal/api/admin.go:169-296 | What the dotted formats would accept: three parts of a tenant cookie, two of an administrator's, unexpired and with the tag of what comes before it, the administrator in the highest role. |
| Cookies.CollisionFreeIsUnforgeable | internal/api/admin.go:153-165 | What is assumed of the HMAC follows when the presented tag was issued and no recomputed message shares its tag with another issued one. |
| Identity.GateExactly | internal/api/crm_identidade.go:68-116 | All that the gate does. It proceeds as preview of the portal named, with the query as sent, exactly for an issued, unexpired administrator cookie with usable fields; as operator `userId` of `domain` exactly, besides, when both cookies were issued, unexpired, for that domain and user, the portal is not blocked and no other is named; it then hands on the confirmed domain and user ids with every other argument as sent. It answers 401 exactly when the cookies do not give one domain, and 403 exactly for a blocked or a foreign portal. |
| Identity.DomainForms | internal/api/partner.go:640-645 | A domain has one normal form, however it is written: in any case, with a scheme or without, with slashes behind it or without. |
| Identity.StoredForms | internal/db/licenses.go:420-426 | The account queries compare it in that form as well, whatever scheme or `www.` after one the table holds. |
| LoginLimiter.AdminLogin.RateLimited | internal/api/admin.go:46-66 | The check blocks exactly in an open window with five failures, forgets a lapsed window, touches no other address, and answers the whole seconds that remain. |
| LoginLimiter.AdminLogin.RecordFail | internal/api/admin.go:68-77 | A failure joins the open window or opens one; other addresses keep theirs. |
| LoginLimiter.AdminLogin.RecordSuccess | internal/api/admin.go:79-83 | A success resets the address and no other. |
| LoginLimiter.AdminLogin.Submit | internal/api/admin.go:390-446 | The route in its order: block list, limiter, credentials, record; the block list grows exactly by rate-limited addresses. |
| LoginLimiter.LockEndsExactly | internal/api/admin.go:46-77 | A lock holds until exactly fifteen minutes after the first failure, and the next failure then opens a new window. |
| LoginLimiter.SlidingWindowBound | internal/api/admin.go:46-83 | However an address times its requests, no closed fifteen-minute interval holds more than nine recorded failures between two successes, and no anchored window more than five. |
| LoginLimiter.NineIsReached | internal/api/admin.go:46-83 | The bound of nine is tight. |
| LoginLimiter.ConcurrentBound | internal/api/admin.go:407-436 | With at most C requests in flight, in every interleaving of checks and records and across expiry and reset, failures plus requests in flight never pass 4 + C. |
| LoginLimiter.FiveKeptIffSerial | internal/api/admin.go:407-436 | The promised limit of five failures is kept in every interleaving exactly when requests of one address never overlap. |
| LoginLimiter.LimitedStaysOut | internal/api/admin.go:401-413 | Once a rate-limited address is in the block list, every later request is refused as listed, however much time passes, except exactly those for which the list cannot be read. |
| BBCode.StripBBCode | internal/api/handlers.go:1758-1807 | The passes, the bracket scan and the two loops compute `Clean`, whose properties follow. |
| BBCode.CollapseLoop | internal/api/handlers.go:1798-1803 | Each "replace while it contains" loop ends and equals collapsing every run of the character to one. |
| BBCode.CleanIsNormal | internal/api/handlers.go:1758-1807 | Whatever the operator typed, the result has no bracket, no `**`, no `__` and no white space at its ends. |
| BBCode.FixedExactlyWhenNormal | internal/api/handlers.go:1758-1807 | The conversion leaves a text alone exactly when it is normal, so applying it again changes nothing. |
| BBCode.CollapseLeavesNoPair | internal/api/handlers.go:1798-1803 | The `__` loop never recreates `**`. |
| BBCode.ConversionIsOneScan | internal/api/handlers.go:1758-1775 | The thirteen replacement passes are one left-to-right scan: no pass makes or destroys a tag for a later one. |
| BBCode.OneTag | internal/api/handlers.go:1758-1775 | One bracketed word in plain text becomes its mark if the table has it, and otherwise stays. |
| BBCode.BreakConvertsIff | internal/api/handlers.go:1758-1790 | A line break, in whichever case, becomes a line break exactly when it is in lower case; otherwise it is dropped and the lines run together. |
| BBCode.RestLostIff | internal/api/handlers.go:1758-1797 | Plain text typed after any text is dropped exactly when the converted text ends in a bracket that nothing closes, and is otherwise kept whole. |
| BBCode.Bold | internal/api/handlers.go:1758-1807 | `[b]x[/b]`, in either case, becomes `*x*` for every normal text that does not touch the mark. |
| BBCode.Italic | internal/api/handlers.go:1758-1807 | `[i]x[/i]` becomes `_x_`. |
| BBCode.Struck | internal/api/handlers.go:1758-1807 | `[s]x[/s]` becomes `~x~`. |
| BBCode.Wrapped | internal/api/handlers.go:1758-1807 | Normal text between a matching pair of tags comes out unchanged between two marks. |
| Confirmation.ExactlyOnce | internal/queue/confirmacao.go:43-86 | Without faults, in every interleaving of one send with any receipts: at most one confirmation, none before a receipt, and exactly one in the end if a receipt came. |
| Confirmation.AtMostOnce | internal/queue/confirmacao.go:31-72 | Unless a command of the worker fails, in any run, with lapsing keys and failing receipts: confirmed once exactly when the entry, once stored, was claimed by the first step to remove it; never more, and never before a receipt. |
| Confirmation.ExpiryCanLose | internal/queue/confirmacao.go:31-64 | A run without failed commands in which a receipt comes, its mark lapses before the worker looks, and nobody confirms. |
| Confirmation.NeverTwiceIff | internal/queue/confirmacao.go:43-86 | After the worker is done, no continuation confirms twice exactly when at most one right to confirm is still in circulation. |
| Confirmation.WorkerFaults | cmd/server/main.go:408-420 | A failed command makes the worker confirm at once, exactly one time; in no continuation does another confirmation follow exactly when the failed command was a SET without effect or a GETDEL that removed the entry. |
| Confirmation.ReceiptFaults | cmd/server/confirmacao.go:59-90 | A failed receipt sends nothing, and unless the message was confirmed before, some continuation still confirms it exactly when the failed command did not remove the entry. |
| Confirmation.ConfirmedExactly | cmd/server/main.go:396-421 | In any run whatever, faults of both sides and expiry included: one confirmation for each failed command of the worker, and one more exactly when the first step to remove the stored entry is an answered GETDEL. |
| Confirmation.WaitsExactly | internal/queue/confirmacao.go:43-86 | The entry waits at the end of a run exactly when it was stored and no step removed it since. |
| Confirmation.FailedReceiptWaits | cmd/server/confirmacao.go:59-90 | A run whose only receipt fails and that comes to rest with the entry stored and nobody left to confirm. |
| Confirmation.RightsKept | internal/queue/confirmacao.go:43-86 | Steps without faults neither make nor destroy the right to confirm. |
| Confirmation.NeverThrice | cmd/server/main.go:396-421 | In no run, faults and expiry included, is a message confirmed three times. |
| Confirmation.Queue.GuardarConfirmacao | internal/queue/confirmacao.go:49-63 | Answer and stored entries for every combination of command faults. |
| Confirmation.Queue.ReciboChegou | internal/queue/confirmacao.go:66-72 | The receipt leaves its mark before it takes the entry. |
| Confirmation.Queue.TratarRecibo | cmd/server/confirmacao.go:59-90 | Receipts of one's own and of other kinds change nothing. When the commands of any other are answered, every message listed is marked and no longer waits, no other changes, and each that waited is confirmed once, with the entry stored for it, in the order of the list. Faults or not, what happens to each single message is the run of its receipts, so everything said of runs holds of it. |
| Confirmation.ReceiveAllIsARun | cmd/server/confirmacao.go:74-86 | A receipt for many messages, projected on one of them, is the run of that message's mentions. |
| Confirmation.Queue.AguardarRecibo | cmd/server/main.go:396-421 | What the worker does after WhatsApp accepted the message, and that it waits for nothing without connector and message id; at most this message is confirmed, with its own entry, and no other entry changes. |
| Confirmation.AwaitIsARun | cmd/server/main.go:408-420 | The worker's method, projected on one message, is a run of the rendezvous, so everything above holds of it. |
| Confirmation.ReceiveIsARun | cmd/server/confirmacao.go:59-90 | So is the receipt's method, whatever other receipts are open or came before. |
| Confirmation.ReceiveTouchesOne | internal/queue/confirmacao.go:66-86 | A receipt touches no other message. |
| Confirmation.UnknownIsStart | internal/queue/confirmacao.go:43-86 | A store that does not know a message is, for that message, the start of the runs. |
| Dedup.Marks.MarkProcessed | internal/queue/queue.go:551-558 | Set-if-absent with a time limit: the first call wins, an error may or may not have marked, other keys keep theirs. |
| Dedup.FirstsAreApart | internal/queue/queue.go:551-558 | Two calls both told "first" are at least the time limit apart. |
| Dedup.DuplicateHasOriginal | internal/queue/queue.go:551-558 | A duplicate is only declared within the time limit of a call that did handle the message. |
| Dedup.HandledOnce | internal/queue/queue.go:551-558 | Within one time limit, with every command answered, exactly the first call handles the message. |
| Dedup.MarkOrigin | internal/queue/queue.go:551-558 | A live mark was left by a call that handled the message. |
| Inbound.Handler.OnMessage | cmd/server/main.go:863-1051 | What becomes of an event, by its fields: nothing without content; set aside exactly at a live mark; refused for a blocked portal, or delivered by link above thirty megabytes; by queue all the rest and a link post without an answer; and the marks. |
| Inbound.Handler.DeliverViaPublicLink | cmd/server/qr_inbound_media.go:33-112 | When the link route takes care of the event, and when its post lands, which it may without an answer. |
| Inbound.SetAsideAfterAnother | cmd/server/main.go:863-911 | What is set aside was preceded, less than five minutes before, by an event with content that passed. |
| Inbound.ContentLostIff | cmd/server/main.go:901-1051 | From the event that left the mark to the one set aside nothing reaches Bitrix exactly when every event taken up was refused for its portal or had neither its link nor its queue push land; with Redis answering, the first is the only one taken up. |
| Inbound.FailedPushThenSetAside | cmd/server/main.go:901-1051 | A failed push and a retry within five minutes: the retry is set aside and nothing is delivered. |
| Inbound.DeliversLikeFirst | cmd/server/main.go:863-1051 | With Redis answering, all events of one message within five minutes deliver at most two copies: none exactly when the first one's deliveries failed or were refused, two exactly when its link landed without an answer and the queue took it as well. |
| Inbound.OnePassPerWindow | cmd/server/main.go:863-1051 | With Redis answering, two events of one message that pass are at least five minutes apart. |
| Inbound.HandleAll | cmd/server/main.go:525-1051 | Running the handler over any events of one message gives these outcomes, delivers by link and by queue exactly the events they say, in order, and as many copies as `DeliversLikeFirst` counts. |
| Inbound.KeysMeetIff | cmd/server/main.go:901-911 | Two events share a key exactly when session and message agree, or one session id continues the other with a ':' and the message ids make up for it. |
| Jid.QrAgree | internal/api/tenant_isolation.go:57-69 | On every paired phone, with or without device, `numeroBase`, `somenteNumero`, the SQL number, the classifier and the connector id all reduce to the same number. |
| Jid.QrServerAgree | cmd/server/main.go:1065-1078 | `stripDeviceSuffix`, `sanitizeJID` and `normalizeQRChatID` all drop exactly the device. |
| Jid.DropsDevice | cmd/server/main.go:1065-1078 | They do so on any id that is not of the cloud: what stands between the first ':' and the first '@' goes. |
| Jid.CloudAgree | internal/api/crm.go:1621-1646 | On a Cloud API session every key keeps the id. |
| Jid.NoNumber | internal/api/crm.go:1621-1646 | Ids without a number have no connector and an empty number in the classifier. |
| Jid.CloudChatLosesId | internal/api/handlers.go:1741-1750 | The two chat normalisers lose the id of a Cloud session. |
| Jid.KeyIsIdentity | internal/api/tenant_isolation.go:57-69 | Two sessions share a key exactly when they are of the same kind and number. |
| Bodies.CanonicalKeeps | internal/api/tenant_isolation.go:383-412 | Parsing a body into a map and printing it again keeps under every name the value a reader of maps finds. |
| Bodies.FieldIsLast | internal/api/handlers.go:572-580 | A field, text or number, gets the value of the last member of its name in any case that has one of its kind, and is zero without one. |
| Bodies.DecodesIff | internal/api/handlers.go:572-580 | JSON is decoded exactly when every member that matches a text field holds a text or null, and every one that matches the line a number or null. |
| Bodies.RewrittenInOrder | internal/api/tenant_isolation.go:383-412 | The rewritten body lists its names in the order of characters, so of several spellings of a field's name the handler takes the last in that order. |
| Bodies.FoldsExactly | internal/api/handlers.go:572-580 | A name matches in either case of its letters, with the long s for an s and the Kelvin sign for a k, and in no other way. |
| Bodies.TypeDecides | internal/api/handlers.go:572-580 | The decoder depends on the media type alone: its parameters and the case of its letters do not count. |
| Bodies.VendorDropped | internal/api/handlers.go:572-580 | A vendor's name before a '+' does not count either. |
| Bodies.NoVendor | internal/api/handlers.go:572-580 | Without a '+', with one only among the parameters, or with one before any '/', there is no vendor's name. |
| Bodies.RewrittenField | internal/api/tenant_isolation.go:383-412 | What a struct decoder finds in the rewritten body under a name that is spelled in one way: the cookie's domain, or what the middleware saw. |
| Bodies.AlikeMeansSeen | internal/api/tenant_isolation.go:383-412 | For a JSON body with exact names the handler acts on the session the middleware saw, and on the cookie's domain or none. |
| Tenants.TenantStore.EscoparAoTenant | internal/api/tenant_isolation.go:355-419 | The middleware lets through exactly the requests that name no other portal, whose body can be read where it is looked at, and whose sessions, where it reads them, are all of numbers of the portal; it hands on the cookie's domain and the rewritten body. |
| Tenants.OperatesIff | internal/api/tenant_isolation.go:102-141 | A portal may operate a JID exactly when the accounts can be read and its number is that of an account row of the portal, or of a pairing of it in memory or, where they can be read, in the table. |
| Tenants.ScopeSound | internal/api/tenant_isolation.go:355-419 | Behind the middleware the query names the cookie's portal, the body is the rewritten one, and every session whose number the middleware read is one the portal may operate; the handler's own reading of the body is the matter of `StoreIsolatedIff`. |
| Tenants.TenantStore.DeleteBitrixAccount | internal/db/repository.go:1476-1489 | Deletes exactly the rows the statement selects. |
| Tenants.TenantStore.Handle | internal/api/handlers.go:572-622 | Every request, through its handler, is one step of the state machine `Serve`, whose effects the next eight rows state in full. |
| TenantRights.OwnRowGoes | internal/api/handlers.go:688-697 | A portal can take back its own: asked to delete, unlink or disconnect the JID of one of its rows, the row goes when the tables answer. |
| TenantRights.DeleteExactly | internal/db/repository.go:1476-1489 | Delete and unlink take away the rows of the JID named and nothing else, if the request passes and the table can be written; else nothing changes. |
| TenantRights.GoesWithItsNumber | internal/db/repository.go:1476-1489 | Of two sessions in circulation, deleting by one takes the other exactly when they are the same Cloud session, or QR sessions of one number. |
| TenantRights.DisconnectExactly | internal/api/ui.go:182-205 | Disconnecting a number of the portal takes its rows, forgets its pairing and changes nothing else; another number changes nothing. |
| TenantRights.LinkExactly | internal/api/handlers.go:866-947 | Linking stores the session the handler decodes, for the domain in normal form, with the session's connector and the line asked for, exactly when the request passes and portal, connector and table answer. |
| TenantRights.CreateExactly | internal/api/handlers.go:572-622 | Creating stores what the handler decodes, with line 1 and the common connector as defaults, exactly when the request passes, no field is missing and the table answers. |
| TenantRights.PairExactly | internal/api/ui.go:20-64 | Asking to pair a number gives it to the portal in memory and table unless its owner is another or unknown; a session that does not start leaves no pairing. |
| TenantRights.PairedIsMine | internal/api/ui.go:20-64 | A number just paired may be operated by the portal, until it is disconnected. |
| Tenants.TenantStore.UiLinkQueue | internal/api/handlers.go:866-947 | Linking stores one row, of the session and domain that `BodyParser` finds in the body. |
| Tenants.TenantStore.UiCreateBitrixAccount | internal/api/handlers.go:572-622 | Creating stores one row, as `BodyParser` reads the body, with the defaults of the handler. |
| Tenants.TenantStore.RegistrarPareamento | internal/api/tenant_isolation.go:150-162 | A pairing is registered in memory and in the table, under the number's key. |
| Tenants.TenantStore.EsquecerPareamento | internal/api/tenant_isolation.go:164-169 | A pairing is forgotten in both. |
| Tenants.StoresTarget | internal/api/handlers.go:572-622 | What is stored is what the handler decodes of the body that reaches it, never without the middleware's consent. |
| Tenants.DecideSound | internal/api/tenant_isolation.go:102-169 | The effect decided on touches a number the portal may operate and writes only its domain, for every request whose two readings agree. |
| Tenants.NonInterference | internal/api/handlers.go:572-697 | A request changes only account rows whose key was among the portal's numbers, and leaves them to the cookie's domain, as the account queries compare domains; the two conditions on the request are exact (`StoreIsolatedIff`, `DeleteIsolatedIff`). |
| Tenants.StoreIsolatedIff | internal/api/tenant_isolation.go:355-419 | A request that stores keeps to its portal, in every state and environment, exactly when it is refused whatever the state, stores nothing, or names to its handler a number that the middleware read, under the cookie's domain. |
| Tenants.Astray | internal/api/handlers.go:572-622 | For every other such request, a state in which it rewrites another portal's row. |
| Tenants.AlikeIsAligned | internal/api/tenant_isolation.go:383-412 | A caller can make sure: a JSON body with the names of domain and session spelled exactly is of the first kind. |
| Tenants.FormIsNotAligned | internal/api/handlers.go:572-622 | A form is not: the middleware reads nothing of it, the handler stores what it says. |
| Tenants.CapitalIsNotAligned | internal/api/handlers.go:866-947 | JSON that names the session "Session_jid" is not either. |
| Tenants.DeleteIsolatedIff | internal/api/handlers.go:688-697 | Delete, unlink and disconnect by a JID keep to their portal, in every state and environment, exactly when the JID has no number or is one of those `DeleteStaysInNumberIff` singles out. |
| Tenants.Straying | internal/db/repository.go:1476-1489 | For every other JID, a state in which each of the three removes another number's row. |
| Tenants.DeleteStaysInNumberIff | internal/db/repository.go:1476-1489 | Deleting by a JID reaches only rows of that JID's number exactly when its user part is non-empty, does not end in white space and is not "cloud" after white space. |
| Tenants.TwoNumbers | internal/db/repository.go:1476-1489 | For every other JID, two rows of different numbers that one delete removes. |
| Tenants.ServeKeepsOneOwner | internal/db/pareamentos.go:57-72 | "Each number has one owning domain" survives every request of every portal, pairing included, whose two readings agree, while the two forms of every stored number agree. |
| Tenants.OneOwnerIff | internal/api/tenant_isolation.go:355-419 | A request that stores keeps one owner per number in every such state exactly when its two readings agree. |
| Tenants.TwoOwners | internal/api/handlers.go:572-622 | For every other such request, a state in which it gives a number a second owner. |
| TenantRuns.TakeoverSucceeds | internal/db/escopo.go:21-35 | From the empty state, on every JID where the SQL number and `numeroBase` differ: the owner pairs it and stores its account, the pairing lapses, and another portal pairs the owned number. |
| TenantRuns.OwnershipIffFormsAgree | internal/db/escopo.go:21-35 | Ownership survives every run from the empty state that stores under no other JID exactly when the two forms of that JID agree. |
| Tenants.TwoPluses | internal/db/escopo.go:21-35 | A number typed with two plus signs is such a JID. |
| Tenants.FormsAgree | internal/db/escopo.go:21-35 | On every session in circulation, with or without device and of the cloud, the SQL number and `numeroBase` agree. |
| Tenants.PortalParamForms | internal/api/handlers.go:1712-1717 | A host name stays one however a portal is written. |
| TenantRuns.RunKeepsOwners | internal/api/tenant_isolation.go:102-169 | One owner per number over every run of requests, restarts and lapsing pairings, for requests whose readings agree and JIDs whose two forms agree; both conditions are exact (`OneOwnerIff`, `OwnershipIffFormsAgree`). |
| TenantRuns.IsolationOverRuns | internal/api/tenant_isolation.go:355-419 | Over any run in which a portal sends nothing, its account rows do not change, whatever the other portals ask for within the conditions of `NonInterference` and `RunKeepsOwners`. |
| TenantRuns.UnreadChangesOthers | internal/api/tenant_isolation.go:383-412 | Outside them they do change: from the empty state a portal pairs its number and stores its account, and any request of another portal whose body the middleware does not read, but its handler does, takes that account away. |
| TenantsInFlight.OneAtATime | internal/api/ui.go:47-56 | With one request in flight at a time, one owner per number holds between decision and effect as well, and every decision taken is still right when it takes effect. |
| TenantsInFlight.Overlap | internal/api/ui.go:47-56 | With two in flight, a run from the empty state that ends with two owners of one number. |
| TenantsInFlight.OneOwnerIffSerial | internal/api/ui.go:47-56 | One owner per number holds in every interleaving exactly when requests never overlap. |
| ConnectorEvents.Connector.ValidateAppToken | internal/api/tenant_isolation.go:266-271 | The application token is accepted when it is the one on file or the first, backed by the portal, which is then kept. |
| ConnectorEvents.Connector.EventoTemProva | internal/api/tenant_isolation.go:266-287 | Proof of origin holds exactly when the application token matches, or the access token is remembered or confirmed by the portal named; the new cache and token store are stated in full. |
| ConnectorEvents.Connector.EventoPodeUsarSessao | internal/api/tenant_isolation.go:299-340 | A session may be used exactly when the portal named owns its number and the origin is proved or not required. |
| ConnectorEvents.Connector.FreshEvent | internal/api/handlers.go:1220-1242 | Which of the two marks stops the event, and what both marks are afterwards. |
| ConnectorEvents.Connector.Handle | internal/api/handlers.go:1112-1414 | The event queues one job exactly when `SendsIff` says so. The job goes to the event's chat without its device, with the event's text as `Clean` leaves it; connector, chat and message ids and the file are the event's, the line is the event's or, for a Cloud event without one, the account's. All stores afterwards are stated. |
| ConnectorEvents.SendsIff | internal/api/handlers.go:1112-1414 | Exactly which events are answered, by their fields, the marks, the tables and the tokens on file: a person's message with something to send, fresh, routed to a number of the portal named, with a proof of origin where required, while the queue accepts. |
| ConnectorEvents.FirstTokenHolds | internal/api/tenant_isolation.go:266-271 | The first application token a portal backs takes hold: from then on exactly that token is proof. |
| ConnectorEvents.ConfirmedHolds | internal/api/tenant_isolation.go:258-287 | A confirmed access token is proof for exactly half an hour, and has to be confirmed again afterwards. |
| ConnectorEvents.AskedWhenUnknown | internal/api/tenant_isolation.go:258-287 | The portal is asked only about a token that is presented, needed and not remembered; using a remembered one does not renew it, and no other token's memory changes. |
| ConnectorEvents.Connector.HandleAll | internal/api/handlers.go:1112-1414 | Over any run every job answers one event, in order, at most one per event; it carries that event's text and chat and leaves by a number of the portal named. In mode `exigir` somebody vouched for it: the token on file or in the cache at the start, or the portal named, which backed that application token or confirmed that access token, less than half an hour before, at an event of the run. |
| ConnectorEvents.CloudRoute | internal/api/handlers.go:1256-1380 | A Cloud event leaves by the first account on record with its connector, on its own line or else the account's, and is dropped exactly when there is none. |
| ConnectorEvents.ChatRoute | internal/api/handlers.go:1256-1380 | Any other event leaves by the session its chat was seen on, and by no other while that is on record; without one, by the only live session; it is dropped exactly when not exactly one is live. |
| ConnectorEvents.SuppressesIff | internal/api/handlers.go:1220-1242 | From any marks, an event leaves a later one not fresh exactly when that was so before, or they share the message id for five minutes, or chat and text for thirty seconds, the first found no live mark of its own and the commands were answered so; portal, ownership and origin play no part. |
| ConnectorEvents.FoundIsNotRenewed | internal/queue/queue.go:551-558 | Three events with one message id, the second within five minutes of the first and the third after them but within five of the second: the second is a duplicate, the third is fresh. |
| ConnectorEvents.ForeignEventSuppresses | internal/api/handlers.go:1220-1242 | Two events of different portals with one message id less than five minutes apart, where the first finds no live mark of it, its command lands and the second's is answered: whatever else becomes of the first, the second is not answered. |
| ConnectorEvents.KeysApart | internal/api/handlers.go:1220-1242 | The two deduplication keys never meet, and ids have keys of their own. |
| ConnectorEvents.TextKeysMeetIff | internal/api/handlers.go:1220-1242 | Two events share the key by text exactly when chat and text agree, or one chat id continues the other with a ':' and the texts make up for it. |
| ConnectorEvents.AttachmentsIndependent | internal/api/handlers.go:1220-1242 | Events with empty text and different ids never suppress one another. |
| Reconciliation.Bitrix.PublicarConector | internal/api/connector_setup.go:99-131 | Afterwards the connector is usable exactly when activation and then data landed, or, if the activation did not land, when only the registration was missing; no other place changes. Where no call is lost a place never published before is registered and usable. |
| Reconciliation.DataBeforeActivation | internal/api/connector_setup.go:6-18 | Publishing in the order the program had before, data and then activation, leaves the connector unusable whenever the activation takes effect, whatever it was before and whatever else fails. |
| Reconciliation.Bitrix.ReconciliarUm | internal/api/conector_reconciliacao.go:91-121 | Writes happen exactly when the status was understood and the connector is out; a usable connector stays so; without a failed call the connector is usable. |
| Reconciliation.Job.ConferirInstalacao | internal/api/conector_reconciliacao.go:147-176 | Only a definite answer moves the uninstalled mark. |
| Reconciliation.Job.Reconciliar | internal/api/conector_reconciliacao.go:61-88 | Under any failures a round makes no usable connector unusable; a round without a failed call leaves every named account usable; each portal's mark afterwards is its definite, stored answer, and else what it was. |
| Reconciliation.Job.StaysUsable | internal/api/conector_reconciliacao.go:61-88 | A usable connector stays usable through any rounds, failing as they may. |
| Reconciliation.InstallCallback | internal/api/handlers.go:513-540 | The install sequence without a failed call leaves every target usable; whatever fails, no other place changes, nothing is unregistered and only targets are registered. |
| Reconciliation.ActivateConnectors | internal/api/handlers.go:1052-1083 | The forced activation without a failed call leaves every connector usable on every line, and reports activity exactly when there was a line. |
| Alerts.AlertJob.AlertarSessoesCaidas | internal/api/alertas.go:147-242 | A round sends exactly the mails, leaves exactly the log rows and remembers exactly the times that the state at its start decides, none of them about a number with a live connection, and keeps the guarantees of the history. |
| Alerts.AlertJob.Visit | internal/api/alertas.go:184-234 | What one session adds to a round, its failed e-mail and undo included. |
| Alerts.AlertJob.DeveAvisar | internal/db/alertas.go:20-83 | Decides by silence and spacing, and takes note in the same step; an insert without an answer notes or not, and sends nothing. |
| Alerts.DownExactly | internal/api/alertas.go:180-193 | A number is down in a round exactly when it is not empty, no live connection has it and some session not of the cloud does. |
| Alerts.DueExactly | internal/db/alertas.go:55-88 | The rule allows a notice exactly when every earlier one about the number in the log is at least the window old, and at least a day once three are of the last day. |
| Alerts.MailedIff | internal/api/alertas.go:147-242 | A round mails about a number exactly when no live connection has it and its first row, not of the cloud, is linked to a portal that is not muted, found it missing for four minutes, the log allows it, the note is answered and the e-mail arrives. |
| Alerts.LongDownIsTold | internal/api/alertas.go:180-242 | A number missing in every round since one that found it linked is mailed about in the first round four minutes later in which it is linked and the log, the note and the e-mail permit. |
| Alerts.OutgoingExactly | internal/api/alertas.go:184-234 | A mail arrives exactly for the first row of a number that is linked, past its grace, due and noted, and whose e-mail goes out, seen or unseen. |
| Alerts.OutgoingOnce | internal/api/alertas.go:184-234 | At most one mail per number and round, and only for numbers down in it. |
| Alerts.OutgoingJustified | internal/api/alertas.go:199-234 | Every mail is about a number that was down in every completed round since a time at least the grace period before. |
| Alerts.StillRemembered | internal/api/alertas.go:235-241 | After a round only numbers down in it are remembered, each since a time from which it was down in every completed round. |
| Alerts.RememberedIff | internal/api/alertas.go:180-242 | After a round a number is remembered exactly when it was missing in it and had been remembered or is linked by its first row, since when it was or since now. |
| Alerts.TwoReadings | internal/api/alertas.go:199-206 | When a round takes less than the grace period, a mail means the number was already down in the round before. |
| Alerts.DueKeepsSpacing | internal/db/alertas.go:55-88 | A notice the rule allows keeps every two about a number the window apart and every four a day apart. |
| Alerts.ThreeADay | internal/db/alertas.go:65-88 | No number is the subject of four mails with a kept notice within a day, and no two of them are closer than the window. |
| Alerts.NotedAreMailedIff | internal/api/alertas.go:184-234 | A round notes exactly the numbers it mails about if and only if, of the numbers it warns about, none is noted by an insert without an answer or by an e-mail and an undo that both failed, and none gets an e-mail whose call failed and whose notice was deleted. |
| Alerts.UnseenLeavesNoTrace | internal/api/alertas.go:199-234 | A mail that arrives although its call failed, its notice deleted, counts for nothing: the limits afterwards are what they were. |
| Alerts.LostInsertSilences | internal/db/alertas.go:55-88 | An insert that takes effect without an answer sends nothing and silences the number for the window. |
| Licences.Notifier.MarkNotificationSent | internal/db/licenses.go:293-316 | New exactly when the key was unmarked and the insert answered; an insert without an answer marks or not. |
| Licences.Notifier.VerificarVencimentos | internal/api/license_notify.go:142-203 | A round is the run of its licences, one turn each: mark, send, and unmark when the e-mail failed; a failed query changes nothing. |
| Licences.DeliveredExactly | internal/api/license_notify.go:142-203 | Over all rounds a (client, kind, due date) is e-mailed exactly as often as a turn sends it while no earlier turn left its mark. |
| Licences.SendsAfterUnseen | internal/api/license_notify.go:163-195 | A second e-mail about a key only follows one that arrived although its call failed and whose mark was taken back. |
| Licences.AtMostOnce | internal/api/license_notify.go:163-195 | Without such an e-mail a key is e-mailed at most once, exactly when the turn that leaves its mark did not do so silently. |
| Licences.UnseenRepeats | internal/api/license_notify.go:178-195 | A turn met twice whose e-mail arrives unseen delivers two. |
| Licences.MarksAreDeliveriesIff | internal/api/license_notify.go:163-195 | The marks are exactly the notices delivered if and only if no key was marked silently, by an insert without an answer or by an e-mail and a delete that both failed, without an e-mail that arrived unseen, and no such e-mail's key is still open. |
| Licences.LostInsertSilences | internal/db/licenses.go:293-316 | An insert that takes effect without an answer marks the key, and no later round ever tells anybody. |
| Licences.FailedIsRetried | internal/api/license_notify.go:163-195 | Whatever other clients the rounds visit in between: if the licence did not change since a failed e-mail whose mark was removed, its next turn that works tells its notice, or, the due date passed, the notice that it lapsed. |
| Licences.OpenIsTold | internal/api/license_notify.go:163-195 | Whatever key is still open is told by the next turn that works. |
| Licences.RenewalReopens | internal/api/license_notify.go:163-171 | A moved due date makes a new notice possible. |
| Licences.SettledForGood | internal/api/license_notify.go:163-176 | A key is marked from the first turn that leaves its mark on, whatever follows, and not before. |
| Licences.DaysMakeSense | internal/db/licenses.go:47-68 | The days an e-mail speaks of are never negative, at most seven to go, and never more than have passed. |
| Licences.DaysByCalendar | internal/db/licenses.go:47-68 | By the calendar: up to the due day the days left, from the day after one less than have gone by; lapsed exactly from the day after on. |
| Licences.NoticeByCalendar | internal/api/license_notify.go:142-203 | The kind of notice of each day, and the days it speaks of. |
| Xml.EscapedReads | internal/api/export.go:319-323 | Reading escaped text gives the text back, with the characters XML cannot hold replaced. |
| Xml.EscapedIsPlain | internal/api/export.go:319-323 | Escaped text holds no markup and only XML characters (sections 2.2 and 2.4 of XML 1.0). |
| Xml.NodesRead | internal/api/export.go:180-198 | Building elements from their tokens gives the elements back. |
| ExportXml.XmlTagName | internal/api/export.go:325-342 | The loop computes the tag of a header, always a Name (section 2.3 of XML 1.0). |
| ExportXml.TagNameIsName | internal/api/export.go:325-342 | Every tag is a Name made of letters, digits and underscores; a header that already is one is its own tag. |
| ExportXml.TagByCharacter | internal/api/export.go:325-342 | The tag character by character: letters and digits stay in their places, everything else is an underscore, a 'c' comes before a digit in front, and an empty header is `campo`. |
| ExportXml.ExportXML | internal/api/export.go:180-202 | The nested loops print a document that, read as XML, is the report. |
| ExportXml.DocumentReads | internal/api/export.go:180-202 | For any headers and rows the printed document is well-formed and reads back as the same rows in order, each cell under its tag. |
| ExportXml.TextsSurviveIff | internal/api/export.go:180-202 | A cell comes back exactly as it was if and only if all its characters are XML characters. |
| ExportXlsx.ColName | internal/api/export.go:309-317 | The loop computes the column name. |
| ExportXlsx.NumberOfName | internal/api/export.go:309-317 | Every positive number has a non-empty name in letters from which it can be read back. |
| ExportXlsx.NameOfNumber | internal/api/export.go:309-317 | Every string of letters is the name of its number, so naming is a bijection. |
| ExportXlsx.AddressesApart | internal/api/export.go:242-260 | No two positions share a cell address. |
| ExportXlsx.ExportXLSX | internal/api/export.go:223-273 | At the end title, subtitle, headers and every data cell hold what was put there, and no other cell was written. |
| ExportXlsx.ShownAsGivenIff | internal/api/export.go:252-262 | A cell, its number printed in full, holds the report's text if and only if that is no 64-bit decimal or is one in canonical form. |
| ExportXlsx.PhoneLosesPlus | internal/api/export.go:76-90 | A telephone printed with "+" is stored without it. |
| DataUri.RoundTripIff | cmd/server/main.go:1082-1100 | Bytes and media type come back from the data URI (section 3 of RFC 2397) exactly when the media type has no comma; with one, nothing does. |
| DataUri.NothingInvented | cmd/server/main.go:1082-1100 | Bytes the worker sends are what the URI's payload decodes to. |
| History.SortById | internal/api/crm.go:1787-1791 | The in-place sort computes the stable insertion sort of the entries. |
| History.SortingSorts | internal/api/crm.go:1787-1791 | The result is ascending, a permutation, and keeps the order of entries with one id. |
| History.OrderIsInvisibleIff | internal/api/crm.go:1755-1791 | The map iteration order is invisible exactly when no two different messages share a numeric id. |

## Left out

- HTTP routing, HTML, logging, metrics, and the admin, template, simulator and stress pages: user
  interface and wiring.
- The statements and commands of PostgreSQL, Redis, SMTP, Bitrix and Meta other than the ones cited:
  they appear as answers that may fail.
- The strength of HMAC, SHA-256 and bcrypt, and constant-time comparison; the SHA-256 cache key of an
  access token is the pair it is computed from.
- Strings are sequences of characters. Invalid UTF-8 does not occur; `strings.ToLower` is modelled on
  ASCII. `Alerts`, `Licences` and `Reconciliation` get domains in the form the queries compare by.
- The bytes of bodies: a body is its content type, its members if it is a JSON object, and what Fiber's
  decoders for forms and XML find in it. JSON documents that are no object, and numbers too long to
  survive the map of the middleware, are not part of this model.
- Crashes and restarts, except that pairings kept in memory are lost by one (`TenantRuns`).
- The portal install with its placeholder migration, placements and the BizProc robot.
- MIME tables, magic bytes, captions, locations, polls and sticker conversion; message kinds reach
  `Inbound` as whether they have content.
- The token-expiry e-mails, the texts of all e-mails, the purge of old alert rows, and the removal of
  notification rows with a portal.
- `GET` of several files, size limits of uploads, and a short `Read` of the upload body: `DataUri`
  starts from the bytes.
- Styles, merges and widths of the spreadsheet, its limits on rows and columns, and the CSV form.
- AdminLogin.Submit: the block list is the set of listed addresses; how an administrator removes one is not modelled.
- DaysMakeSense: hours are exact numbers, where the code divides a floating-point duration.
- Reconciliar: "every account usable" is promised of the portals whose account list could be read.
- ShownAsGivenIff: speaks of the number stored; a spreadsheet may display a long one in its own format.
- ThreeADay: is about mails whose notice was kept; one that arrived unseen leaves none (`UnseenLeavesNoTrace`).
- DeliversLikeFirst: is about runs whose deduplication commands are answered; an unanswered one lets the event pass.

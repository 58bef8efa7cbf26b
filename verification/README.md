# Git issue notifier: a Dafny model of the webhook handler

The notifier is a single HTTP handler, `NotificationService`. It receives the
JSON payload of an issue event from the code-hosting platform. When the action
is `"opened"` and the reporter is not a member of the organisation, it emails
a notice to a comma-separated recipient list. This project models the pure
logic of that handler and proves properties about it:

- `json.dfy` (module `Json`): the parsed payload as an immutable JSON tree.
  It also models Gson's `getAsString`, and the walk of a path of member names
  through nested objects (`Resolve`).
- `java_text.dfy` (module `JavaText`): the two `java.lang.String` operations
  the handler uses. `String.split` on one separator follows Java's limit-0
  rules: a string without the separator splits into itself, a leading empty
  field is kept, and trailing empty fields are dropped. `replaceAll(" ", "")`
  removes every space.
- `field_extraction.dfy` (module `FieldExtraction`): `getValue`, the
  dotted-key lookup that never fails and answers `""` when the key names no
  string. `ValueAt` is the reference meaning. The method `GetValue` follows
  the handler's loop step by step and is proved to return `ValueAt`.
- `notification_service.dfy` (module `NotificationService`): `isMember`'s
  mapping of the HTTP outcome, the recipient list, the subject and the HTML
  body, and the decision in `post`.

The handler's effects are modelled as the sequence of outbound calls it makes:
`QueryMembership(user)` and `SendMail(mail)`. The membership lookup is a
parameter. It is a total function from a user name to the call's outcome,
`Status(code)` or `TransportError`, and it stands in for the GitHub request
and its token. A payload that is not an object stands for a missing request
body: every lookup in it yields `""`, as the handler's caught
`NullPointerException` would.

## Model

| member | source | states |
|---|---|---|
| `JavaText.Split` | src/main/java/org/simple/hook/NotificationService.java:74 | Java's `split` with limit 0: no field holds the separator; a string without the separator is one field; the last field is never an empty one that was dropped; joining the fields with the separator gives back the input minus its trailing separators |
| `JavaText.SplitJoin` | src/main/java/org/simple/hook/NotificationService.java:74 | splitting the join of separator-free fields gives those fields back, unless the last field is an empty one that Java drops |
| `JavaText.RemoveAll` | src/main/java/org/simple/hook/NotificationService.java:109 | `replaceAll(" ", "")`: the result holds no space and no character the input lacks; an input without spaces is unchanged |
| `JavaText.RemoveAllCounts` | src/main/java/org/simple/hook/NotificationService.java:109 | removing spaces keeps every other character with its number of occurrences and leaves no space |
| `JavaText.RemoveAllAppend` | src/main/java/org/simple/hook/NotificationService.java:109 | space removal distributes over concatenation, so the kept characters stay in their original order |
| `Json.AsString` | src/main/java/org/simple/hook/NotificationService.java:81 | `getAsString` succeeds exactly on primitives (string, number, boolean); a string reads as itself, a number as the text it was written with, a boolean as `true` or `false` |
| `Json.ResolveAppend` | src/main/java/org/simple/hook/NotificationService.java:77-79 | walking a path made of two parts is walking the first part, then the second part from where the first one ends |
| `FieldExtraction.GetValue` | src/main/java/org/simple/hook/NotificationService.java:70-86 | the loop over all segments but the last, then the read of the last one, always returns, and its result is `FieldExtraction.ValueAt`, the reference meaning of `getValue`: the text of the primitive that the key's segments lead to through nested objects, or `""` |
| `FieldExtraction.ValueAtFailedStep` | src/main/java/org/simple/hook/NotificationService.java:77-85 | a failure at any step of the walk, either a missing member or a value that is not an object where one is needed, gives `""` |
| `FieldExtraction.ValueAtIntermediateNotObject` | src/main/java/org/simple/hook/NotificationService.java:77-79 | an intermediate segment that names a missing member or a value that is not an object gives `""` |
| `FieldExtraction.ValueAtLastStep` | src/main/java/org/simple/hook/NotificationService.java:81 | when the segments before the last lead to an object holding the last member, the result is that member's `getAsString` text |
| `FieldExtraction.ValueAtNonPrimitive` | src/main/java/org/simple/hook/NotificationService.java:81-85 | a key naming null, an array or an object gives `""` |
| `FieldExtraction.ValueAtFound` | src/main/java/org/simple/hook/NotificationService.java:70-86 | a non-empty result is always the string form of a primitive that the key's segments lead to |
| `FieldExtraction.ValueAtNest` | src/main/java/org/simple/hook/NotificationService.java:74-81 | round trip: put a leaf at the end of a path of names, write the path as a dotted key, and extraction returns the leaf's string form |
| `FieldExtraction.SegmentsOfJoin` | src/main/java/org/simple/hook/NotificationService.java:74 | a dotted key built from non-empty, dot-free names splits into exactly those names |
| `FieldExtraction.ActionKeySegments` | src/main/java/org/simple/hook/NotificationService.java:45 | the key `action` is the single member name `action` |
| `FieldExtraction.ReporterKeySegments` | src/main/java/org/simple/hook/NotificationService.java:41 | the reporter key walks `issue`, `user`, `login` |
| `FieldExtraction.NumberKeySegments` | src/main/java/org/simple/hook/NotificationService.java:42 | the number key walks `issue`, `number` |
| `FieldExtraction.UrlKeySegments` | src/main/java/org/simple/hook/NotificationService.java:43 | the link key walks `issue`, `html_url` |
| `FieldExtraction.TitleKeySegments` | src/main/java/org/simple/hook/NotificationService.java:44 | the title key walks `issue`, `title` |
| `FieldExtraction.ActionOfOpenedEvent` | src/main/java/org/simple/hook/NotificationService.java:62 | the action of `{"action":"opened"}` extracts as `"opened"` |
| `NotificationService.MembershipOutcomes` | src/main/java/org/simple/hook/NotificationService.java:88-103 | `NotificationService.IsMember`, the model of `isMember`, is true exactly for status 204 or a transport failure; any other status (404, an unfollowed 302, ...) is false |
| `NotificationService.Recipients` | src/main/java/org/simple/hook/NotificationService.java:109-113 | no recipient holds a space or a comma; joining the recipients with commas gives the space-free `to` minus its trailing commas; a `to` without commas is one recipient |
| `NotificationService.RecipientsOfJoin` | src/main/java/org/simple/hook/NotificationService.java:109-113 | a comma-joined list of addresses free of spaces and commas parses back into exactly that list |
| `NotificationService.Subject` | src/main/java/org/simple/hook/NotificationService.java:152-155 | the subject is the fixed notice line, and the issue number read back out of it is exactly the extracted `issue.number` |
| `NotificationService.Content` | src/main/java/org/simple/hook/NotificationService.java:137-150 | the HTML body contains the issue title, the reporter and the issue link, in that order and without overlap |
| `NotificationService.ContentFraming` | src/main/java/org/simple/hook/NotificationService.java:139-146 | the body always starts with the fixed document head and ends with the fixed closing tags |
| `NotificationService.ComposeMail` | src/main/java/org/simple/hook/NotificationService.java:105-119 | the notice carries the sender and the `text/html` content type; its recipients are the parsed `to`: free of spaces and commas, joining with commas to the space-free `to` minus its trailing commas, and a single address when `to` has no comma; its subject reads back the issue number; its body shows title, reporter and link in order |
| `NotificationService.Post` | src/main/java/org/simple/hook/NotificationService.java:58-68 | there are no outbound calls at all unless the action is exactly `"opened"`; the first call is the membership query for the reporter; a single notice is sent exactly when the action is `"opened"` and the reporter is not a member; any notice sent is the composed one |
| `NotificationService.MembershipIrrelevantUnlessOpened` | src/main/java/org/simple/hook/NotificationService.java:62-63 | because the condition short-circuits, for any action other than `"opened"` the calls do not depend on the membership lookup (and there are none) |
| `NotificationService.MissingActionDoesNothing` | src/main/java/org/simple/hook/NotificationService.java:62-65 | a payload with no `action` member causes no call: the action extracts as `""` |
| `NotificationService.TransportErrorSuppressesMail` | src/main/java/org/simple/hook/NotificationService.java:62-67 | when the membership call fails in transport, no notice is ever sent |
| `NotificationService.OpenedIssueEventAction` | src/main/java/org/simple/hook/NotificationService.java:62 | in the sample "opened" event the action extracts as `"opened"`, the value the handler compares against |
| `NotificationService.OpenedIssueEventReporter` | src/main/java/org/simple/hook/NotificationService.java:41 | in the sample "opened" event the reporter extracts as `alice` |
| `NotificationService.OpenedIssueEventNumber` | src/main/java/org/simple/hook/NotificationService.java:42 | in the sample event the number member `42` extracts as the text `"42"` |
| `NotificationService.OpenedByNonMember` | src/main/java/org/simple/hook/NotificationService.java:58-68 | for the sample event with a 404 membership answer: one query for `alice`, then exactly one notice to `a@b.com` whose subject carries `42` |

## Left out

- The JAX-RS endpoint wiring and query-parameter binding (lines 37 and
  55-60) are framework plumbing. The handler's parameters become plain
  function arguments.
- The OkHttp request to the membership endpoint and its `Authorization`
  header (lines 91-96) are network I/O. Only the call's outcome is modelled,
  through the `membership` parameter, and the GitHub token is folded into
  that parameter.
- Building and sending the SendGrid request, and logging its response
  (lines 121-134), are a foreign library and I/O. The model stops at the
  `Mail` value handed over in a `SendMail` call. A failed send is caught and
  logged by the handler and changes nothing the model tracks. The SendGrid
  token is therefore not a parameter.
- `Json.AsString` treats every array as having no string form. Gson's
  `JsonArray.getAsString` returns the string form of the only element of a
  one-element array. This library behaviour is not visible in this code, so
  the model does not follow it.
- Numbers keep the text they were written with, which is what Gson's lazily
  parsed numbers give back from `getAsString`. JSON parsing itself (duplicate
  members, number syntax) is not modelled.
- A `null` `to` parameter would throw at line 109, since nothing guards it.
  In the model `to` is a `string`, which is never null, so this is a
  precondition carried by the type.
- `String.format` with `%s` inserts each argument as it is, so the subject
  and body templates are modelled as concatenation.
- The handler checks only the action and the reporter's membership in one
  organisation (lines 62-63). It neither excludes particular reporters nor
  checks that a recipient was given. Its subject is
  `[Git-Issue] New git issue #<number> from non member` (line 154), and its
  body shows the issue title, the reporter and the issue link (lines
  139-149). The model states exactly these.
- Stack-trace printing on failures (lines 100 and 133) is output only.

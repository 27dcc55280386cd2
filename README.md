# Webhook message catalogue of the DynaKube pod-mutation webhook

The pod-mutation webhook of the Dynatrace operator answers an admission
request either by mutating the pod or by letting it through with an
explanatory message. Those messages live in
`src/webhook/mutation/error_messages.go`. The file holds ten fixed messages,
for example "app injection is disabled" or "failed to query the init secret
before pod injection". It also holds two templates with their rendering
functions:

- `errorDynakubeLabelNotSet(ns)` renders `namespace '<ns>' has no DynaKube label`.
- `errorDynakubeAssignedButDoesNotExist(dk, ns)` renders
  `DynaKube '<dk>' is assigned to namespace '<ns>', but DynaKube '<dk>' does not exist`.

The messages exist so that operators can tell the cases apart. "No label" must
read differently from "the label names a DynaKube that does not exist".
"Could not query" must read differently from "could not create" a secret.
This model states and proves that they do.

The project has three modules:

- `Text` (`text.dfy`) holds small facts about strings: prefixes, a part
  occurring at a position, and the first apostrophe in a text.
- `Fmt` (`fmt_sprintf.dfy`) models the part of Go's `fmt.Sprintf` that the
  templates use. Each `%s` is replaced, left to right, by the next string
  argument, inserted verbatim with no quoting. Every other character is
  copied. A `%s` with no argument left gives Go's `%!s(MISSING)`. The lemmas
  prove that rendering distributes over a template cut between verbs. From
  that they prove what a one-verb and a three-verb template render to.
- `Mutation` (`error_messages.dfy`) holds the following:
  - the ten constants and the two templates;
  - the two rendering functions, defined by `Fmt.Sprintf` on the template
    just as the Go code calls it;
  - a closed `MessageKind` datatype with one constructor per message, and
    `Render`;
  - the lemmas about the rendered text.

Each rendering function's contract gives the exact text it produces. That
text is obtained from the `Sprintf` model; it is not copied from the
function's body. Rendering is deterministic and reads no state: Dafny
functions can depend only on their arguments, so this needs no lemma.

Six constants are spelled differently from the Go literals, with the same
text. The five longest fixed messages are written as two string literals
joined by `+`. The assigned-but-missing template is written as its literal
segments joined around the three `%s`. Both forms keep the solver's work on
long literals small.

The assigned-but-missing message is not injective on arbitrary strings.
`AssignedAmbiguousWithQuotes` exhibits two different (DynaKube, namespace)
pairs that render the same text. In that example the second DynaKube name
contains apostrophes. Cluster object names consist of lower-case letters,
digits, `-` and `.`, so they never contain an apostrophe. The injectivity
lemmas therefore assume apostrophe-free DynaKube names
(`MessageKind.NamesQuoteFree`). With that assumption every message kind,
with its arguments, can be read back from its text.

## Model

| member | source | states |
|---|---|---|
| `Fmt.Sprintf` | src/webhook/mutation/error_messages.go:24-28 | each `%s` is replaced left to right by the next argument, other characters are copied, and `%!s(MISSING)` stands in when no argument is left; a template without verbs renders as itself, and the output is never shorter than the template minus two characters per verb |
| `Fmt.SprintfLiteral` | src/webhook/mutation/error_messages.go:19-20 | template text without `%` is copied to the output unchanged and uses no argument |
| `Fmt.SprintfVerb` | src/webhook/mutation/error_messages.go:24 | a `%s` renders as the next argument, inserted verbatim, or as `%!s(MISSING)` when none is left |
| `Fmt.SprintfConcat` | src/webhook/mutation/error_messages.go:28 | rendering a template cut between verbs is rendering the first piece with the first arguments, then the second piece with the arguments left over |
| `Fmt.SprintfOneVerb` | src/webhook/mutation/error_messages.go:24 | a `head %s tail` template with one argument renders as `head + arg + tail` and has exactly one verb |
| `Fmt.SprintfThreeVerbs` | src/webhook/mutation/error_messages.go:28 | a three-verb template with three arguments renders them in order between its literal segments |
| `Mutation.LabelNotSetTemplateSegments` | src/webhook/mutation/error_messages.go:19 | the label-not-set template is `namespace '`, one `%s`, then `' has no DynaKube label` |
| `Mutation.SegmentsVerbFree` | src/webhook/mutation/error_messages.go:19-20 | the literal parts of both templates contain no `%`, so the only verbs are the `%s` placeholders |
| `Mutation.DynakubeLabelNotSet` | src/webhook/mutation/error_messages.go:23-25 | the message is `"namespace '" + ns + "' has no DynaKube label"`, and it is 34 characters longer than the namespace name |
| `Mutation.DynakubeAssignedButDoesNotExist` | src/webhook/mutation/error_messages.go:27-29 | the DynaKube name fills the first and third placeholders and the namespace the second; the message is 71 characters longer than the namespace name plus twice the DynaKube name |
| `Mutation.Render` | src/webhook/mutation/error_messages.go:6-20 | a message starts with `namespace '` exactly when it is label-not-set, and with `DynaKube '` exactly when it is assigned-but-missing |
| `Mutation.LabelNotSetOpening` | src/webhook/mutation/error_messages.go:19 | every label-not-set message starts with `namespace '` and never with `DynaKube '` |
| `Mutation.AssignedOpening` | src/webhook/mutation/error_messages.go:20 | every assigned-but-missing message starts with `DynaKube '` and never with `namespace '` |
| `Mutation.FixedText` | src/webhook/mutation/error_messages.go:6-15 | each fixed kind maps to its constant; no fixed message starts with `namespace '` or with `DynaKube '`, so none equals a rendered template |
| `Mutation.FixedMessagesDistinct` | src/webhook/mutation/error_messages.go:6-15 | the ten fixed messages are pairwise distinct; this covers init-secret query vs. create and data-ingest query vs. create |
| `Mutation.LabelNotSetMentions` | src/webhook/mutation/error_messages.go:23-25 | the namespace name occurs in the label-not-set message, right after `namespace '` |
| `Mutation.LabelNotSetInjective` | src/webhook/mutation/error_messages.go:23-25 | two namespace names give the same label-not-set message exactly when they are equal |
| `Mutation.AssignedMentions` | src/webhook/mutation/error_messages.go:27-29 | the message contains the DynaKube name twice: after the opening and before `' does not exist`; the namespace name stands between them |
| `Mutation.LabelNotSetNeverAssigned` | src/webhook/mutation/error_messages.go:19-20 | a label-not-set message never equals an assigned-but-missing message, whatever the arguments |
| `Mutation.AssignedInjective` | src/webhook/mutation/error_messages.go:27-29 | with apostrophe-free DynaKube names, two assigned-but-missing messages are equal exactly when both names are equal |
| `Mutation.AssignedAmbiguousWithQuotes` | src/webhook/mutation/error_messages.go:20 | without that restriction, two different name pairs render to the same message |
| `Mutation.RenderInjective` | src/webhook/mutation/error_messages.go:6-29 | with apostrophe-free DynaKube names, two message kinds render the same text exactly when they are the same kind with the same arguments |

## Left out

- `integrationtests/envutils_test.go` is end-to-end test plumbing and is not part of this model. It starts an API server, creates namespaces and secrets over a live client, registers CRDs, sets an environment variable and builds a mock client. All of that is I/O or a foreign library.
- The webhook handler, which decides when each message is returned, is not part of this model. Neither are the reconciler and secret provisioning. Only the message catalogue is modelled.
- `Fmt.Sprintf`: only the `%s` verb with string arguments is modelled. Other verbs and `%%` are copied as plain text, where Go would interpret them. Surplus arguments are dropped, where Go appends `%!(EXTRA ...)`. Neither case occurs in these templates.
- `Mutation.AssignedInjective`: holds only for DynaKube names without an apostrophe. `Mutation.AssignedAmbiguousWithQuotes` shows that it fails otherwise. Cluster object names never contain one.
- `Mutation.RenderInjective`: needs the same apostrophe-free DynaKube names, for the same reason.
- Strings are modelled as sequences of characters, and lengths count characters. Go strings are byte strings and `len` counts bytes. The proved facts carry over: the fixed text is ASCII, so its lengths agree; an apostrophe is a single byte in UTF-8 and never occurs inside a multi-byte character.

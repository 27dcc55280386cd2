/**
 The admission webhook's catalogue of user-facing messages
 (src/webhook/mutation/error_messages.go): ten fixed messages, two templates
 and the two functions that fill the templates in with `fmt.Sprintf`.
 */
module Mutation {
  import Fmt
  import Text

  // The ten fixed messages. The five longest are written as two literals
  // joined: the text is the same, and the split keeps the solver's work on
  // their first characters small.
  const ErrorOneAgentOperatorExists: string :=
    "OneAgentAPM object detected - "
    + "DynaKube webhook won't inject until the OneAgent Operator has been uninstalled"
  const ErrorNoFeaturesEnabled: string := "no features are enabled, skipping injection"
  const ErrorDecodingPod: string := "failed to decode pod"
  const ErrorFailedToQueryNamespace: string := "failed to query namespace"
  const ErrorFailedToQueryDynakube: string := "failed to query DynaKube"
  const ErrorAppInjectionDisabled: string := "app injection is disabled"
  const ErrorFailedToQueryInitSecret: string :=
    "failed to query " + "the init secret before pod injection"
  const ErrorCreatingInitSecret: string :=
    "failed to create " + "the init secret before pod injection"
  const ErrorFailedToQueryDataIngestEndpointSecret: string :=
    "failed to query " + "the data-ingest endpoint secret before pod injection"
  const ErrorCreatingQueryDataIngestEndpointSecret: string :=
    "failed to create " + "the data-ingest endpoint secret before pod injection"

  // The literal text around the templates' `%s` verbs.
  const LabelNotSetHead: string := "namespace '"
  const LabelNotSetTail: string := "' has no DynaKube label"
  const AssignedHead: string := "DynaKube '"
  const AssignedToNamespace: string := "' is assigned to namespace '"
  const AssignedButDynakube: string := "', but DynaKube '"
  const AssignedTail: string := "' does not exist"

  // The two templates.
  const ErrorDynakubeLabelNotSetTemplate: string := "namespace '%s' has no DynaKube label"
  /** "DynaKube '%s' is assigned to namespace '%s', but DynaKube '%s' does not exist",
      written as its segments (the 77-character literal is costly for the
      solver to take apart). */
  const ErrorDynakubeAssignedButDoesNotExistTemplate: string :=
    AssignedHead + "%s" + AssignedToNamespace + "%s" + AssignedButDynakube + "%s" + AssignedTail

  /** The label-not-set template is its literal text around one `%s` verb. */
  lemma LabelNotSetTemplateSegments()
    ensures ErrorDynakubeLabelNotSetTemplate == LabelNotSetHead + "%s" + LabelNotSetTail
  {
    assert LabelNotSetHead + "%s" == "namespace '%s";
    assert "namespace '%s" + LabelNotSetTail == "namespace '%s' has no DynaKube label";
  }

  /** The literal text of the templates holds no verb. */
  lemma SegmentsVerbFree()
    ensures '%' !in LabelNotSetHead && '%' !in LabelNotSetTail
    ensures '%' !in AssignedHead && '%' !in AssignedToNamespace
    ensures '%' !in AssignedButDynakube && '%' !in AssignedTail
  {
  }

  /** `errorDynakubeLabelNotSet`: the namespace name is inserted verbatim
      into the label-not-set template, so the message is as long as the name
      plus the 34 characters of fixed text. */
  function DynakubeLabelNotSet(namespaceName: string): (r: string)
    ensures r == LabelNotSetHead + namespaceName + LabelNotSetTail
    ensures |r| == |namespaceName| + 34
  {
    LabelNotSetTemplateSegments();
    SegmentsVerbFree();
    Fmt.SprintfOneVerb(LabelNotSetHead, LabelNotSetTail, namespaceName);
    Fmt.Sprintf(ErrorDynakubeLabelNotSetTemplate, [namespaceName])
  }

  /** `errorDynakubeAssignedButDoesNotExist`: the DynaKube name fills the first
      and third verbs, the namespace name the second. */
  function DynakubeAssignedButDoesNotExist(dynakubeName: string, namespaceName: string): (r: string)
    ensures r == AssignedHead + dynakubeName + AssignedToNamespace + namespaceName
               + AssignedButDynakube + dynakubeName + AssignedTail
    ensures |r| == 2 * |dynakubeName| + |namespaceName| + 71
  {
    SegmentsVerbFree();
    Fmt.SprintfThreeVerbs(AssignedHead, AssignedToNamespace, AssignedButDynakube, AssignedTail,
                          dynakubeName, namespaceName, dynakubeName);
    Fmt.Sprintf(ErrorDynakubeAssignedButDoesNotExistTemplate, [dynakubeName, namespaceName, dynakubeName])
  }

  /** Every message the webhook can report, one constructor per constant and
      one per template carrying the values that fill it in. */
  datatype MessageKind =
    | OneAgentOperatorExists
    | NoFeaturesEnabled
    | DecodingPod
    | FailedToQueryNamespace
    | FailedToQueryDynakube
    | AppInjectionDisabled
    | FailedToQueryInitSecret
    | CreatingInitSecret
    | FailedToQueryDataIngestEndpointSecret
    | CreatingQueryDataIngestEndpointSecret
    | LabelNotSet(namespaceName: string)
    | AssignedButMissing(dynakubeName: string, namespaceName: string)
  {
    /** The kinds whose text is one of the ten fixed constants. */
    predicate IsFixed() {
      !LabelNotSet? && !AssignedButMissing?
    }

    /** The DynaKube name carries no apostrophe. Cluster object names never
        do (they are lower-case letters, digits, '-' and '.'), and the
        assigned-but-missing text can only be read back unambiguously when
        this holds (see AssignedAmbiguousWithQuotes). */
    predicate NamesQuoteFree() {
      AssignedButMissing? ==> '\'' !in dynakubeName
    }
  }

  /** A text that differs from "namespace '" at one of its first two
      characters and does not begin with `D` starts like neither template. */
  lemma OpensUnlikeTemplates(s: string, i: nat)
    requires i < 2 <= |s| && s[i] != LabelNotSetHead[i] && s[0] != 'D'
    ensures !Text.StartsWith(s, LabelNotSetHead) && !Text.StartsWith(s, AssignedHead)
  {
    Text.DiffersWithin(s, LabelNotSetHead, i);
    Text.DiffersWithin(s, AssignedHead, 0);
  }

  /** The constant of a fixed kind. No fixed message begins like either
      template, so none can be mistaken for a rendered one. Only "no
      features are enabled" shares its first letter with "namespace '". */
  function FixedText(k: MessageKind): (r: string)
    requires k.IsFixed()
    ensures !Text.StartsWith(r, LabelNotSetHead)
    ensures !Text.StartsWith(r, AssignedHead)
  {
    match k
    case OneAgentOperatorExists => OpensUnlikeTemplates(ErrorOneAgentOperatorExists, 0); ErrorOneAgentOperatorExists
    case NoFeaturesEnabled => OpensUnlikeTemplates(ErrorNoFeaturesEnabled, 1); ErrorNoFeaturesEnabled
    case DecodingPod => OpensUnlikeTemplates(ErrorDecodingPod, 0); ErrorDecodingPod
    case FailedToQueryNamespace => OpensUnlikeTemplates(ErrorFailedToQueryNamespace, 0); ErrorFailedToQueryNamespace
    case FailedToQueryDynakube => OpensUnlikeTemplates(ErrorFailedToQueryDynakube, 0); ErrorFailedToQueryDynakube
    case AppInjectionDisabled => OpensUnlikeTemplates(ErrorAppInjectionDisabled, 0); ErrorAppInjectionDisabled
    case FailedToQueryInitSecret => OpensUnlikeTemplates(ErrorFailedToQueryInitSecret, 0); ErrorFailedToQueryInitSecret
    case CreatingInitSecret => OpensUnlikeTemplates(ErrorCreatingInitSecret, 0); ErrorCreatingInitSecret
    case FailedToQueryDataIngestEndpointSecret => OpensUnlikeTemplates(ErrorFailedToQueryDataIngestEndpointSecret, 0); ErrorFailedToQueryDataIngestEndpointSecret
    case CreatingQueryDataIngestEndpointSecret => OpensUnlikeTemplates(ErrorCreatingQueryDataIngestEndpointSecret, 0); ErrorCreatingQueryDataIngestEndpointSecret
  }

  /** The text of a message kind. A caller can tell from the opening words
      alone whether it is a label-not-set message, an assigned-but-missing
      message, or one of the fixed messages. */
  function Render(k: MessageKind): (r: string)
    ensures k.LabelNotSet? <==> Text.StartsWith(r, LabelNotSetHead)
    ensures k.AssignedButMissing? <==> Text.StartsWith(r, AssignedHead)
  {
    match k
    case LabelNotSet(ns) =>
      LabelNotSetOpening(ns);
      DynakubeLabelNotSet(ns)
    case AssignedButMissing(dk, ns) =>
      AssignedOpening(dk, ns);
      DynakubeAssignedButDoesNotExist(dk, ns)
    case _ =>
      FixedText(k)
  }

  /** The label-not-set message opens like its template and not like the
      other one. */
  lemma LabelNotSetOpening(namespaceName: string)
    ensures Text.StartsWith(DynakubeLabelNotSet(namespaceName), LabelNotSetHead)
    ensures !Text.StartsWith(DynakubeLabelNotSet(namespaceName), AssignedHead)
  {
    var r := DynakubeLabelNotSet(namespaceName);
    Text.StartsWithFirst(LabelNotSetHead, namespaceName + LabelNotSetTail);
    Text.AppendAssociative(LabelNotSetHead, namespaceName, LabelNotSetTail);
    assert r[0] == 'n';
    Text.DiffersWithin(r, AssignedHead, 0);
  }

  /** The assigned-but-missing message opens like its template and not like
      the other one. */
  lemma AssignedOpening(dynakubeName: string, namespaceName: string)
    ensures Text.StartsWith(DynakubeAssignedButDoesNotExist(dynakubeName, namespaceName), AssignedHead)
    ensures !Text.StartsWith(DynakubeAssignedButDoesNotExist(dynakubeName, namespaceName), LabelNotSetHead)
  {
    var r := DynakubeAssignedButDoesNotExist(dynakubeName, namespaceName);
    AssignedShapeMentions(AssignedHead, AssignedToNamespace, AssignedButDynakube, AssignedTail,
                          dynakubeName, namespaceName);
    assert r[0] == 'D';
    Text.DiffersWithin(r, LabelNotSetHead, 0);
  }

  /** The fixed messages are pairwise distinct; in particular "could not
      query" and "could not create" are told apart for both secrets. */
  lemma FixedMessagesDistinct(k1: MessageKind, k2: MessageKind)
    requires k1.IsFixed() && k2.IsFixed()
    ensures FixedText(k1) == FixedText(k2) <==> k1 == k2
  {
    var s1, s2 := FixedText(k1), FixedText(k2);
    if k1 != k2 && |s1| == |s2| {
      // Only "failed to query namespace" and "app injection is disabled"
      // have the same length; their last letters differ.
      assert s1[|s1| - 1] != s2[|s2| - 1];
    }
  }

  /** Where the namespace name stands in the label-not-set message. */
  lemma LabelNotSetMentions(namespaceName: string)
    ensures Text.OccursAt(DynakubeLabelNotSet(namespaceName), namespaceName, |LabelNotSetHead|)
    ensures Text.Contains(DynakubeLabelNotSet(namespaceName), namespaceName)
  {
    Text.OccursAtEnd(LabelNotSetHead, namespaceName);
    Text.OccursAppended(LabelNotSetHead + namespaceName, namespaceName, |LabelNotSetHead|, LabelNotSetTail);
    Text.OccursContains(DynakubeLabelNotSet(namespaceName), namespaceName, |LabelNotSetHead|);
  }

  /** Two namespaces get the same label-not-set message exactly when they are
      the same namespace. */
  lemma LabelNotSetInjective(ns1: string, ns2: string)
    ensures DynakubeLabelNotSet(ns1) == DynakubeLabelNotSet(ns2) <==> ns1 == ns2
  {
    if DynakubeLabelNotSet(ns1) == DynakubeLabelNotSet(ns2) {
      LabelNotSetMentions(ns1);
      LabelNotSetMentions(ns2);
    }
  }

  /** Where the parts stand in a text of the assigned-but-missing shape
      `head dk mid1 ns mid2 dk tail`, whatever its literal parts: the
      DynaKube name right after `head` and again right before `tail`, the
      namespace name between `mid1` and `mid2`. */
  lemma AssignedShapeMentions(head: string, mid1: string, mid2: string, tail: string,
                              dk: string, ns: string)
    ensures var r := head + dk + mid1 + ns + mid2 + dk + tail;
      && Text.OccursAt(r, dk, |head|)
      && Text.OccursAt(r, mid1, |head| + |dk|)
      && Text.OccursAt(r, ns, |head| + |dk| + |mid1|)
      && Text.OccursAt(r, dk, |r| - |tail| - |dk|)
  {
    var p1 := head + dk;
    var p2 := p1 + mid1;
    var p3 := p2 + ns;
    var p4 := p3 + mid2;
    var p5 := p4 + dk;
    Text.OccursAtEnd(head, dk);
    Text.OccursAppended(p1, dk, |head|, mid1);
    Text.OccursAtEnd(p1, mid1);
    Text.OccursAppended(p2, dk, |head|, ns);
    Text.OccursAppended(p2, mid1, |p1|, ns);
    Text.OccursAtEnd(p2, ns);
    Text.OccursAppended(p3, dk, |head|, mid2);
    Text.OccursAppended(p3, mid1, |p1|, mid2);
    Text.OccursAppended(p3, ns, |p2|, mid2);
    Text.OccursAppended(p4, dk, |head|, dk);
    Text.OccursAppended(p4, mid1, |p1|, dk);
    Text.OccursAppended(p4, ns, |p2|, dk);
    Text.OccursAtEnd(p4, dk);
    Text.OccursAppended(p5, dk, |head|, tail);
    Text.OccursAppended(p5, mid1, |p1|, tail);
    Text.OccursAppended(p5, ns, |p2|, tail);
    Text.OccursAppended(p5, dk, |p4|, tail);
  }

  /** Where the two names stand in the assigned-but-missing message: the
      DynaKube name right after the opening and again right before the
      closing text, the namespace name in between. */
  lemma AssignedMentions(dynakubeName: string, namespaceName: string)
    ensures var r := DynakubeAssignedButDoesNotExist(dynakubeName, namespaceName);
      && Text.OccursAt(r, dynakubeName, |AssignedHead|)
      && Text.OccursAt(r, namespaceName, |AssignedHead| + |dynakubeName| + |AssignedToNamespace|)
      && Text.OccursAt(r, dynakubeName, |r| - |AssignedTail| - |dynakubeName|)
      && Text.Contains(r, dynakubeName) && Text.Contains(r, namespaceName)
  {
    var r := DynakubeAssignedButDoesNotExist(dynakubeName, namespaceName);
    AssignedShapeMentions(AssignedHead, AssignedToNamespace, AssignedButDynakube, AssignedTail,
                          dynakubeName, namespaceName);
    Text.OccursContains(r, dynakubeName, |AssignedHead|);
    Text.OccursContains(r, namespaceName, |AssignedHead| + |dynakubeName| + |AssignedToNamespace|);
  }

  /** A label-not-set message is never an assigned-but-missing message. */
  lemma LabelNotSetNeverAssigned(namespaceName: string, dynakubeName: string, otherNamespace: string)
    ensures DynakubeLabelNotSet(namespaceName) != DynakubeAssignedButDoesNotExist(dynakubeName, otherNamespace)
  {
    LabelNotSetOpening(namespaceName);
    AssignedOpening(dynakubeName, otherNamespace);
  }

  /** In a text of the assigned-but-missing shape whose literal part after
      the DynaKube name opens with an apostrophe, an apostrophe-free DynaKube
      name and the namespace name can be read back. */
  lemma AssignedShapeInjective(head: string, mid1: string, mid2: string, tail: string,
                               dk1: string, ns1: string, dk2: string, ns2: string)
    requires |mid1| > 0 && mid1[0] == '\''
    requires '\'' !in dk1 && '\'' !in dk2
    requires head + dk1 + mid1 + ns1 + mid2 + dk1 + tail == head + dk2 + mid1 + ns2 + mid2 + dk2 + tail
    ensures dk1 == dk2 && ns1 == ns2
  {
    var r := head + dk1 + mid1 + ns1 + mid2 + dk1 + tail;
    AssignedShapeMentions(head, mid1, mid2, tail, dk1, ns1);
    AssignedShapeMentions(head, mid1, mid2, tail, dk2, ns2);
    assert r[|head| + |dk1|] == r[|head| + |dk1|..|head| + |dk1| + |mid1|][0] == mid1[0];
    assert r[|head| + |dk2|] == r[|head| + |dk2|..|head| + |dk2| + |mid1|][0] == mid1[0];
    Text.QuoteIndexAfter(r, dk1, |head|);
    Text.QuoteIndexAfter(r, dk2, |head|);
  }

  /** With apostrophe-free DynaKube names, the assigned-but-missing message
      determines both names. */
  lemma AssignedInjective(dk1: string, ns1: string, dk2: string, ns2: string)
    requires '\'' !in dk1 && '\'' !in dk2
    ensures DynakubeAssignedButDoesNotExist(dk1, ns1) == DynakubeAssignedButDoesNotExist(dk2, ns2)
        <==> dk1 == dk2 && ns1 == ns2
  {
    if DynakubeAssignedButDoesNotExist(dk1, ns1) == DynakubeAssignedButDoesNotExist(dk2, ns2) {
      assert AssignedToNamespace[0] == '\'';
      AssignedShapeInjective(AssignedHead, AssignedToNamespace, AssignedButDynakube, AssignedTail,
                             dk1, ns1, dk2, ns2);
    }
  }

  /** Without the restriction on names the assigned-but-missing message is
      ambiguous: an empty DynaKube name with a namespace name that itself
      spells out template text gives the same message as another pair. */
  lemma AssignedAmbiguousWithQuotes()
    ensures DynakubeAssignedButDoesNotExist(
              "", AssignedButDynakube + AssignedToNamespace + AssignedButDynakube + AssignedToNamespace)
         == DynakubeAssignedButDoesNotExist(AssignedToNamespace + AssignedButDynakube, "")
  {
  }

  /** Different message kinds render to different texts (for apostrophe-free
      DynaKube names), so a caller can always tell which case occurred. */
  lemma RenderInjective(k1: MessageKind, k2: MessageKind)
    requires k1.NamesQuoteFree() && k2.NamesQuoteFree()
    ensures Render(k1) == Render(k2) <==> k1 == k2
  {
    if Render(k1) == Render(k2) {
      match k1
      case LabelNotSet(ns1) =>
        LabelNotSetInjective(ns1, k2.namespaceName);
      case AssignedButMissing(dk1, ns1) =>
        AssignedInjective(dk1, ns1, k2.dynakubeName, k2.namespaceName);
      case _ =>
        FixedMessagesDistinct(k1, k2);
    }
  }
}

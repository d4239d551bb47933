/**
  The tables the chat route declares, and the facts the pipeline's lemmas
  need about them.
*/
module ChatTables {
  import opened Wrappers
  import opened Strings
  import opened Chat

  /** The knowledge corpus, in match-priority order. */
  const Corpus: seq<KnowledgeEntry> := [
    KnowledgeEntry(1, "anxiety",
      "Anxiety is a normal and often healthy emotion. However, when a person regularly feels disproportionate levels of anxiety, it might become a medical disorder. Techniques like deep breathing, mindfulness, and cognitive behavioral therapy can help manage anxiety."),
    KnowledgeEntry(2, "depression",
      "Depression is a common and serious medical illness that negatively affects how you feel, the way you think, and how you act. It's characterized by persistent feelings of sadness and loss of interest in activities once enjoyed. It's important to seek professional help if experiencing symptoms of depression."),
    KnowledgeEntry(3, "stress",
      "Stress is your body's reaction to pressure from a certain situation or event. It can be positive as a short-term motivator but can negatively impact health when chronic. Stress management techniques include regular exercise, adequate sleep, and relaxation practices."),
    KnowledgeEntry(4, "mindfulness",
      "Mindfulness is the practice of purposely focusing your attention on the present moment and accepting it without judgment. Regular mindfulness practice can reduce stress, improve focus, and increase emotional regulation."),
    KnowledgeEntry(5, "self_care",
      "Self-care means taking the time to do things that help you live well and improve both your physical health and mental health. Self-care can include maintaining a regular sleep routine, eating healthy, spending time in nature, or engaging in hobbies.")
  ]

  /** The distress lexicon. */
  const DistressKeywords: seq<string> := [
    "suicide", "kill myself", "end my life", "don't want to live",
    "self-harm", "hurt myself", "cutting myself",
    "hopeless", "worthless", "no reason to live"
  ]

  /** The supportive fallback phrases; only the first one addresses the user by name. */
  const SupportivePhrases: seq<Phrase> := [
    Addressed("I hear you, ", ". How long have you been feeling this way?"),
    Fixed("Thank you for sharing that with me. Would you like to talk more about what's on your mind?"),
    Fixed("I'm here to support you. What do you think might help you feel better right now?"),
    Fixed("That sounds challenging. Have you tried any coping strategies that have worked for you in the past?"),
    Fixed("I appreciate you opening up. Remember that your feelings are valid, and it's okay to ask for help.")
  ]

  /** The deployed tables. */
  const Standard: Tables := Tables(Corpus, DistressKeywords, SupportivePhrases)

  /** The corpus topics follow the label chain, and the ids are 1 to 5 in order. */
  lemma CorpusMirrorsLabelChain()
    ensures MirrorsLabelChain(Corpus)
    ensures forall k :: 0 <= k < |Corpus| ==> Corpus[k].id == k + 1
  {
  }

  /** The five contents are non-empty (so every hit is truthy) and pairwise distinct (their lengths already differ). */
  lemma CorpusContentsDistinct()
    ensures forall k :: 0 <= k < |Corpus| ==> Corpus[k].content != ""
    ensures forall a, b :: 0 <= a < b < |Corpus| ==> Corpus[a].content != Corpus[b].content
  {
  }

  /** With the deployed corpus, an earlier topic in the message keeps every later entry's content out of the answer. */
  lemma StandardLaterTopicLoses(t: Tables, message: string, i: nat, j: nat)
    requires t.corpus == Corpus
    requires i < j < |Corpus| && Contains(Lower(message), Corpus[i].topic)
    ensures RetrieveKnowledge(t, message) != Some(Corpus[j].content)
  {
    CorpusContentsDistinct();
    LaterTopicLoses(t, message, i, j);
  }

  /** Ten non-empty, lower-case keywords: every one can match, and the empty message matches none. */
  lemma KeywordsWellFormed()
    ensures |DistressKeywords| == 10
    ensures forall j :: 0 <= j < |DistressKeywords| ==> DistressKeywords[j] != ""
    ensures forall j :: 0 <= j < |DistressKeywords| ==> Lower(DistressKeywords[j]) == DistressKeywords[j]
  {
    forall j | 0 <= j < |DistressKeywords| ensures Lower(DistressKeywords[j]) == DistressKeywords[j] {
      LowerOfLowercase(DistressKeywords[j]);
    }
  }

  /** With the deployed lexicon, the empty message raises no alarm. */
  lemma EmptyMessageNoDistress(t: Tables)
    requires t.keywords == DistressKeywords
    ensures !DetectDistress(t, "")
  {
    KeywordsWellFormed();
    DetectDistressEmpty(t);
  }

  /** Five phrases; the user's name appears in the first and in no other. */
  lemma PhrasesAddressOnlyFirst(username: string, other: string)
    ensures |SupportivePhrases| == 5
    ensures Contains(Render(SupportivePhrases[0], username), username)
    ensures forall i :: 1 <= i < |SupportivePhrases| ==>
              Render(SupportivePhrases[i], username) == Render(SupportivePhrases[i], other)
  {
    RenderUsername(SupportivePhrases[0], username, other);
    forall i | 1 <= i < |SupportivePhrases|
      ensures Render(SupportivePhrases[i], username) == Render(SupportivePhrases[i], other)
    {
      RenderUsername(SupportivePhrases[i], username, other);
    }
  }

  /** With the deployed corpus, a knowledge reply names the entry it quotes. */
  lemma StandardKnowledgeReply(t: Tables, message: string, username: string, pick: nat, k: int)
    requires t.corpus == Corpus && pick < |t.phrases|
    requires !DetectDistress(t, message) && IsFirstMatch(Lower(message), Corpus, k)
    ensures GenerateResponse(t, message, username, pick)
         == Reply(ReplyLead + DisplayName(Corpus[k].topic) + ". " + Corpus[k].content, false)
  {
    CorpusMirrorsLabelChain();
    CorpusContentsDistinct();
    KnowledgeReply(t, message, username, pick, k);
  }
}

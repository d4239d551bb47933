/**
  The single-turn reply pipeline of the chat route: distress screening,
  keyword retrieval from a knowledge corpus, composition of the reply, and
  the input guard of the message endpoint.

  The fixed tables the route declares (corpus, distress lexicon, supportive
  phrases) are passed in as one `Tables` value; the deployed values are in
  module `ChatTables`. The random choice of a supportive phrase is the
  explicit parameter `pick` (the source draws `Math.floor(Math.random() * n)`
  for a bank of `n` phrases).
*/
module Chat {
  import opened Wrappers
  import opened Strings

  datatype KnowledgeEntry = KnowledgeEntry(id: nat, topic: string, content: string)

  /** A supportive phrase: fixed text, or text around the user's name. */
  datatype Phrase = Fixed(text: string) | Addressed(before: string, after: string)

  datatype Tables = Tables(corpus: seq<KnowledgeEntry>, keywords: seq<string>, phrases: seq<Phrase>)

  datatype Reply = Reply(text: string, distressDetected: bool)

  const CrisisMessage: string :=
    "I notice you may be going through a difficult time. Remember that you're not alone, and help is available. Would you like me to provide some crisis resources that might be helpful?"

  const ReplyLead: string := "I understand you're asking about "

  // ---------------------------------------------------------------------
  // Distress detection
  // ---------------------------------------------------------------------

  /** `phrases.some(p => text.includes(p))`. */
  function AnyContained(text: string, phrases: seq<string>): (r: bool)
    ensures r <==> exists j :: 0 <= j < |phrases| && Contains(text, phrases[j])
  {
    if phrases == [] then false
    else if Contains(text, phrases[0]) then true
    else
      assert forall j :: 1 <= j < |phrases| ==> phrases[j] == phrases[1..][j - 1];
      AnyContained(text, phrases[1..])
  }

  /** Distress is detected exactly when some keyword is a substring of the lower-cased message. */
  function DetectDistress(t: Tables, message: string): (r: bool)
    ensures r <==> exists j :: 0 <= j < |t.keywords| && Contains(Lower(message), t.keywords[j])
  {
    AnyContained(Lower(message), t.keywords)
  }

  /** The empty message raises no alarm, provided no keyword is empty. */
  lemma DetectDistressEmpty(t: Tables)
    requires forall j :: 0 <= j < |t.keywords| ==> t.keywords[j] != ""
    ensures !DetectDistress(t, "")
  {
  }

  /** Detection does not depend on letter case. */
  lemma DetectDistressCaseInsensitive(t: Tables, message: string)
    ensures DetectDistress(t, Lower(message)) == DetectDistress(t, message)
  {
    LowerIdempotent(message);
  }

  // ---------------------------------------------------------------------
  // Knowledge retrieval
  // ---------------------------------------------------------------------

  /** Entry `k` is the first entry of `entries` whose topic occurs in `text`. */
  ghost predicate IsFirstMatch(text: string, entries: seq<KnowledgeEntry>, k: int) {
    && 0 <= k < |entries|
    && Contains(text, entries[k].topic)
    && forall j :: 0 <= j < k ==> !Contains(text, entries[j].topic)
  }

  /** No topic of `entries` occurs in `text`. */
  ghost predicate NoTopicMatches(text: string, entries: seq<KnowledgeEntry>) {
    forall j :: 0 <= j < |entries| ==> !Contains(text, entries[j].topic)
  }

  /** There is at most one first match. */
  lemma FirstMatchUnique(text: string, entries: seq<KnowledgeEntry>, k1: int, k2: int)
    requires IsFirstMatch(text, entries, k1) && IsFirstMatch(text, entries, k2)
    ensures k1 == k2
  {
  }

  /** The in-order scan of `entries`, returning the content of the first entry whose topic occurs in `text`. */
  function FirstMatchContent(text: string, entries: seq<KnowledgeEntry>): (r: Option<string>)
    ensures r.None? <==> NoTopicMatches(text, entries)
    ensures r.Some? ==> exists k :: IsFirstMatch(text, entries, k) && r.value == entries[k].content
  {
    if entries == [] then
      None
    else if Contains(text, entries[0].topic) then
      assert IsFirstMatch(text, entries, 0);
      Some(entries[0].content)
    else
      var rest := FirstMatchContent(text, entries[1..]);
      assert forall j :: 1 <= j < |entries| ==> entries[j] == entries[1..][j - 1];
      assert rest.Some? ==> exists k :: IsFirstMatch(text, entries, k) && rest.value == entries[k].content by {
        if rest.Some? {
          var k :| IsFirstMatch(text, entries[1..], k) && rest.value == entries[1..][k].content;
          assert IsFirstMatch(text, entries, k + 1);
        }
      }
      rest
  }

  /**
    `retrieveKnowledge`: the content of the least-indexed corpus entry whose
    topic is a substring of the lower-cased message, or `None` when no topic is.
  */
  function RetrieveKnowledge(t: Tables, message: string): (r: Option<string>)
    ensures r.None? <==> NoTopicMatches(Lower(message), t.corpus)
    ensures forall k :: IsFirstMatch(Lower(message), t.corpus, k) ==> r == Some(t.corpus[k].content)
  {
    var r := FirstMatchContent(Lower(message), t.corpus);
    assert forall k :: IsFirstMatch(Lower(message), t.corpus, k) ==> r == Some(t.corpus[k].content) by {
      forall k | IsFirstMatch(Lower(message), t.corpus, k) ensures r == Some(t.corpus[k].content) {
        var k' :| IsFirstMatch(Lower(message), t.corpus, k') && r.value == t.corpus[k'].content;
        FirstMatchUnique(Lower(message), t.corpus, k, k');
      }
    }
    r
  }

  /** Retrieval does not depend on letter case. */
  lemma RetrieveKnowledgeCaseInsensitive(t: Tables, message: string)
    ensures RetrieveKnowledge(t, Lower(message)) == RetrieveKnowledge(t, message)
  {
    LowerIdempotent(message);
  }

  /** First match in corpus order wins: a topic present in the message leaves only it or an earlier entry to answer. */
  lemma EarlierTopicWins(t: Tables, message: string, i: nat)
    requires i < |t.corpus| && Contains(Lower(message), t.corpus[i].topic)
    ensures exists k :: 0 <= k <= i && IsFirstMatch(Lower(message), t.corpus, k)
                     && RetrieveKnowledge(t, message) == Some(t.corpus[k].content)
  {
    var r := RetrieveKnowledge(t, message);
    assert !NoTopicMatches(Lower(message), t.corpus);
    var k :| IsFirstMatch(Lower(message), t.corpus, k) && r.value == t.corpus[k].content;
    assert k <= i;
  }

  /** With distinct contents, a later entry's content is never returned when an earlier topic is present. */
  lemma LaterTopicLoses(t: Tables, message: string, i: nat, j: nat)
    requires i < j < |t.corpus| && Contains(Lower(message), t.corpus[i].topic)
    requires forall a, b :: 0 <= a < b < |t.corpus| ==> t.corpus[a].content != t.corpus[b].content
    ensures RetrieveKnowledge(t, message) != Some(t.corpus[j].content)
  {
  }

  // ---------------------------------------------------------------------
  // Reply composition
  // ---------------------------------------------------------------------

  /** The label chain of the knowledge reply, tested in the order anxiety, depression, stress, mindfulness. */
  function TopicLabel(message: string): string {
    var text := Lower(message);
    if Contains(text, "anxiety") then "anxiety"
    else if Contains(text, "depression") then "depression"
    else if Contains(text, "stress") then "stress"
    else if Contains(text, "mindfulness") then "mindfulness"
    else "self-care"
  }

  /** The corpus lists its topics in the order the label chain tests them, ending with `self_care`. */
  ghost predicate MirrorsLabelChain(corpus: seq<KnowledgeEntry>) {
    && |corpus| == 5
    && corpus[0].topic == "anxiety"
    && corpus[1].topic == "depression"
    && corpus[2].topic == "stress"
    && corpus[3].topic == "mindfulness"
    && corpus[4].topic == "self_care"
  }

  /** How a corpus topic is meant to be shown to the user: its keyword, with `self_care` spelled `self-care`. */
  ghost function DisplayName(topic: string): string {
    if topic == "self_care" then "self-care" else topic
  }

  /** The displayed label always names the entry whose content was retrieved. */
  lemma TopicLabelMatchesEntry(corpus: seq<KnowledgeEntry>, message: string, k: int)
    requires MirrorsLabelChain(corpus) && IsFirstMatch(Lower(message), corpus, k)
    ensures TopicLabel(message) == DisplayName(corpus[k].topic)
  {
  }

  /**
    The agreement needs the corpus order: if a corpus put `stress` before
    `anxiety`, a message naming both would show the label "anxiety" above the
    stress content.
  */
  lemma LabelMismatchWithoutMirror(corpus: seq<KnowledgeEntry>, message: string)
    requires |corpus| > 0 && corpus[0].topic == "stress"
    requires Contains(Lower(message), "anxiety") && Contains(Lower(message), "stress")
    ensures IsFirstMatch(Lower(message), corpus, 0)
    ensures TopicLabel(message) == "anxiety"
    ensures TopicLabel(message) != DisplayName(corpus[0].topic)
  {
  }

  /** The template literal of a phrase, evaluated for `username`. */
  function Render(p: Phrase, username: string): string {
    match p
    case Fixed(text) => text
    case Addressed(before, after) => before + username + after
  }

  /** An addressed phrase mentions the user; a fixed one is the same for everybody. */
  lemma RenderUsername(p: Phrase, username: string, other: string)
    ensures p.Addressed? ==> Contains(Render(p, username), username)
    ensures p.Fixed? ==> Render(p, username) == Render(p, other)
  {
    if p.Addressed? {
      var s := Render(p, username);
      assert s[|p.before|..|p.before| + |username|] == username;
      ContainsAtOffset(s, username, |p.before|);
    }
  }

  /**
    `generateResponse`, with the random phrase index made explicit. The
    knowledge branch is taken when retrieval yields a truthy string, that is
    a non-empty one; `None` and an empty content fall back to a phrase.
  */
  function GenerateResponse(t: Tables, message: string, username: string, pick: nat): (r: Reply)
    requires pick < |t.phrases|
    ensures r.distressDetected <==> DetectDistress(t, message)
    ensures r.distressDetected ==> r.text == CrisisMessage
  {
    if DetectDistress(t, message) then
      Reply(CrisisMessage, true)
    else
      var knowledge := RetrieveKnowledge(t, message);
      if knowledge.Some? && knowledge.value != "" then
        Reply(ReplyLead + TopicLabel(message) + ". " + knowledge.value, false)
      else
        Reply(Render(t.phrases[pick], username), false)
  }

  /** Distress has priority over every topic keyword the message may also contain. */
  lemma DistressTakesPriority(t: Tables, message: string, username: string, pick: nat, j: nat)
    requires pick < |t.phrases|
    requires j < |t.keywords| && Contains(Lower(message), t.keywords[j])
    ensures GenerateResponse(t, message, username, pick) == Reply(CrisisMessage, true)
  {
  }

  /** Without distress, a first matching entry with content is announced under its own name, followed by that content. */
  lemma KnowledgeReply(t: Tables, message: string, username: string, pick: nat, k: int)
    requires pick < |t.phrases| && MirrorsLabelChain(t.corpus)
    requires !DetectDistress(t, message) && IsFirstMatch(Lower(message), t.corpus, k)
    requires t.corpus[k].content != ""
    ensures GenerateResponse(t, message, username, pick)
         == Reply(ReplyLead + DisplayName(t.corpus[k].topic) + ". " + t.corpus[k].content, false)
  {
  }

  /** Without distress and without a topic, the reply is the picked supportive phrase. */
  lemma FallbackReply(t: Tables, message: string, username: string, pick: nat)
    requires pick < |t.phrases|
    requires !DetectDistress(t, message) && NoTopicMatches(Lower(message), t.corpus)
    ensures GenerateResponse(t, message, username, pick) == Reply(Render(t.phrases[pick], username), false)
  {
  }

  /** A first matching entry whose content is empty is falsy, so the reply is the picked supportive phrase. */
  lemma EmptyContentFallsBack(t: Tables, message: string, username: string, pick: nat, k: int)
    requires pick < |t.phrases|
    requires !DetectDistress(t, message) && IsFirstMatch(Lower(message), t.corpus, k)
    requires t.corpus[k].content == ""
    ensures GenerateResponse(t, message, username, pick) == Reply(Render(t.phrases[pick], username), false)
  {
  }

  /** Every reply is the crisis message, the announcement of one corpus entry, or a phrase of the bank. */
  lemma ReplyShapes(t: Tables, message: string, username: string, pick: nat)
    requires pick < |t.phrases| && MirrorsLabelChain(t.corpus)
    ensures var r := GenerateResponse(t, message, username, pick);
      || r == Reply(CrisisMessage, true)
      || (exists k :: 0 <= k < |t.corpus|
            && r == Reply(ReplyLead + DisplayName(t.corpus[k].topic) + ". " + t.corpus[k].content, false))
      || (exists i :: 0 <= i < |t.phrases| && r == Reply(Render(t.phrases[i], username), false))
  {
    var knowledge := RetrieveKnowledge(t, message);
    if !DetectDistress(t, message) && knowledge.Some? && knowledge.value != "" {
      var k :| IsFirstMatch(Lower(message), t.corpus, k) && knowledge.value == t.corpus[k].content;
      KnowledgeReply(t, message, username, pick, k);
    }
  }

  // ---------------------------------------------------------------------
  // The message endpoint's input guard
  // ---------------------------------------------------------------------

  datatype RequestError = MessageRequired

  /** What the endpoint answers: the user's message echoed back and the bot's reply. */
  datatype Exchange = Exchange(echo: string, reply: Reply)

  const DefaultUsername: string := "User"

  /**
    The `/message` handler without transport: an absent or empty message is
    rejected before any reply is composed, a missing username becomes
    `DefaultUsername`.
  */
  function HandleMessage(t: Tables, message: Option<string>, username: Option<string>, pick: nat)
    : (r: Result<Exchange, RequestError>)
    requires pick < |t.phrases|
    ensures r.Err? <==> message == None || message == Some("")
    ensures r.Err? ==> r.error == MessageRequired
    ensures r.Ok? ==> r.value.echo == message.value
    ensures r.Ok? ==> r.value.reply.distressDetected == DetectDistress(t, message.value)
  {
    match message
    case None => Err(MessageRequired)
    case Some(text) =>
      if text == "" then Err(MessageRequired)
      else
        var name := match username case Some(u) => u case None => DefaultUsername;
        Ok(Exchange(text, GenerateResponse(t, text, name, pick)))
  }

  /** A missing username is answered exactly as the name "User" would be; a given one is passed through. */
  lemma HandleMessageUsername(t: Tables, text: string, username: string, pick: nat)
    requires pick < |t.phrases| && text != ""
    ensures HandleMessage(t, Some(text), None, pick) == Ok(Exchange(text, GenerateResponse(t, text, "User", pick)))
    ensures HandleMessage(t, Some(text), Some(username), pick)
         == Ok(Exchange(text, GenerateResponse(t, text, username, pick)))
  {
  }
}

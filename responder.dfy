/** The offline chat widget (src/components/ai-chatbot/chatbot.tsx): the keyword responder
    `generateResponse`, the chat-bubble text transform and `resetChat`. */
module Responder {
  import opened Wrappers
  import opened Text
  import opened ChatTypes

  // ---------------------------------------------------------------- knowledge base

  /** The `knowledgeBase` entries, verbatim. */
  const SkillsText: string := @"Sreeshanth has expertise in:
• **Languages**: Python (expert), JavaScript, TypeScript, C, SQL
• **Frontend**: React.js, Next.js, Tailwind CSS, Three.js
• **Backend**: Node.js, FastAPI, Firebase, Supabase, REST APIs
• **AI/ML**: PyTorch, TensorFlow, OpenCV, LLMs, RAG, LangChain, Computer Vision
• **DevOps**: Docker, Kubernetes, AWS, PostgreSQL, Neo4j, Git
• **Certifications**: AWS Cloud Practitioner, Microsoft AI Product Manager"

  const ExperienceText: string := @"Sreeshanth's experience:
• **Nov 2024-Present**: Testing & Developer Intern at Interview Companion (ICMS)
  - Building AI job application features with Python
  - Testing web-based interview management system
• **Mar-Jun 2024**: Software Engineering Intern at Koluvu Company
  - AI-driven interview tools with Python & React
  - Improved system reliability by 25%
• **Education**: B.Tech in CS & Business Systems at VNR VJIET (CGPA: 8.05/10)"

  const ProjectsText: string := @"Notable projects by Sreeshanth:
• **Underwater Obstruction Detection** (₹15L Govt. Funded): YOLOv11-based marine safety system with 94% accuracy on 15K+ images
• **OpStream - OSINT Platform**: FastAPI + React platform for discovering GitHub issues with vector search
• **NEXUS - GraphRAG Platform**: LangGraph + Neo4j knowledge platform with <500ms inference"

  const ContactText: string := @"You can reach Sreeshanth through:
• **Email**: peddisreeshanth18@gmail.com
• **Phone**: +91 90528 34976
• **LinkedIn**: linkedin.com/in/sreeshanthpeddi
• **GitHub**: github.com/P-Sreeshanth
• **Location**: Hyderabad, India"

  const AvailabilityText: string := @"Sreeshanth is currently **available for opportunities**! He's open to:
• Full-time positions (graduating May 2026)
• Internships
• Freelance AI/ML and Full Stack projects
• Interesting collaborations"

  const ReactText: string := @"Sreeshanth has strong React experience:
• Building full-stack applications with React & Next.js
• Interview management system at ICMS
• AI-driven tools at Koluvu Company
• NEXUS platform with Next.js and Three.js"

  const AiText: string := @"Sreeshanth's AI/ML expertise:
• **Computer Vision**: Built YOLOv11-based underwater detection (₹15L funded)
• **RAG Systems**: NEXUS platform with LangGraph and self-correcting RAG
• **LLMs**: Experience with Groq, OpenAI, vector databases (Qdrant, Neo4j)
• **PyTorch & TensorFlow**: Deep learning implementations"

  const AchievementsText: string := @"Sreeshanth's achievements:
• **₹15L MSME Government Funding** for Underwater Detection project
• **Mr. VNR 2024 Winner** & **Mr. SNIST 2024 Winner**
• **TEDxVNRVJIET Event Organizer Head** - Led 20+ volunteers
• **NMMS Scholar** - Government scholarship for academic excellence
• **AWS Cloud Practitioner** & **Microsoft AI PM** certifications"

  const DefaultText: string := @"I'm Sreeshanth's AI assistant! I can help you learn about:
• His **skills** (Python, AI/ML, Full Stack)
• **Work experience** and internships
• **Projects** (including ₹15L govt-funded AI project)
• **Achievements** and certifications
• How to **contact** him
• His **availability** for opportunities

What would you like to know?"

  /** The reply to a greeting. */
  const GreetingText: string := @"Hello! 👋 I'm here to help you learn more about Sreeshanth. He's a CS undergrad with expertise in AI/ML and Full Stack development. What would you like to know?"

  /** The ten texts `generateResponse` can return. */
  const ResponseTexts: set<string> := {
    SkillsText, ExperienceText, ProjectsText, ContactText, AvailabilityText,
    ReactText, AiText, AchievementsText, GreetingText, DefaultText
  }

  // ---------------------------------------------------------------- the rule chain

  /** Which canned answer a query gets. */
  datatype Topic = Skills | Experience | Projects | Contact | Availability | React | Ai | Achievements | Greeting | Fallback

  function TopicText(t: Topic): string {
    match t
    case Skills => SkillsText
    case Experience => ExperienceText
    case Projects => ProjectsText
    case Contact => ContactText
    case Availability => AvailabilityText
    case React => ReactText
    case Ai => AiText
    case Achievements => AchievementsText
    case Greeting => GreetingText
    case Fallback => DefaultText
  }

  /** One `if (q.includes(k1) || q.includes(k2) || ...) return answer;` line. */
  datatype Rule = Rule(keywords: seq<string>, topic: Topic)

  /** The `if` chain of `generateResponse`, in source order. */
  const Rules: seq<Rule> := [
    Rule(["skill", "technolog", "stack", "python", "know"], Skills),
    Rule(["experience", "work", "job", "career", "intern"], Experience),
    Rule(["project", "portfolio", "built", "created", "underwater", "nexus", "opstream"], Projects),
    Rule(["contact", "reach", "email", "phone", "hire"], Contact),
    Rule(["available", "freelance", "open", "opportunity"], Availability),
    Rule(["react", "frontend", "next", "web"], React),
    Rule(["ai", "ml", "machine", "deep", "vision", "llm", "rag"], Ai),
    Rule(["achieve", "award", "certif", "winner", "fund"], Achievements),
    Rule(["hello", "hi", "hey"], Greeting)
  ]

  /** The `||` chain of one rule: some keyword occurs in `q`. */
  predicate MatchesAny(q: string, keywords: seq<string>)
    ensures MatchesAny(q, keywords) <==> exists k :: 0 <= k < |keywords| && Contains(q, keywords[k])
  {
    keywords != [] && (Contains(q, keywords[0]) || MatchesAny(q, keywords[1..]))
  }

  predicate RuleFires(q: string, rules: seq<Rule>, i: int)
    requires 0 <= i < |rules|
  {
    MatchesAny(q, rules[i].keywords)
  }

  /** The index of the first rule that fires, or `None` when none does. */
  function FirstMatch(q: string, rules: seq<Rule>): (r: Option<nat>)
    ensures r.Some? ==> r.value < |rules| && RuleFires(q, rules, r.value)
    ensures r.Some? ==> forall j :: 0 <= j < r.value ==> !RuleFires(q, rules, j)
    ensures r.None? <==> forall j :: 0 <= j < |rules| ==> !RuleFires(q, rules, j)
  {
    if rules == [] then None
    else if MatchesAny(q, rules[0].keywords) then assert RuleFires(q, rules, 0); Some(0)
    else
      assert forall j :: 1 <= j < |rules| ==> RuleFires(q, rules, j) == RuleFires(q, rules[1..], j - 1);
      match FirstMatch(q, rules[1..])
      case None => None
      case Some(i) => assert RuleFires(q, rules, i + 1); Some(i + 1)
  }

  /** The topic `generateResponse` answers with: the first firing rule's, or the default. */
  function Classify(query: string): (t: Topic)
    // the default topic is given exactly to queries that fire no rule
    ensures t == Fallback <==> forall j :: 0 <= j < |Rules| ==> !RuleFires(Lower(query), Rules, j)
  {
    var m := FirstMatch(Lower(query), Rules);
    if m.Some? then
      assert m.value < 9 && RuleFires(Lower(query), Rules, m.value);
      assert Rules[m.value].topic != Fallback;
      Rules[m.value].topic
    else Fallback
  }

  /** `generateResponse(query)`. */
  function GenerateResponse(query: string): (r: string)
    ensures r in ResponseTexts
  {
    TopicText(Classify(query))
  }

  /** Matching ignores case: a query and its lower-case form get the same answer. */
  lemma ClassifyIgnoresCase(query: string)
    ensures Classify(query) == Classify(Lower(query))
    ensures GenerateResponse(query) == GenerateResponse(Lower(query))
  {
    LowerIdempotent(query);
  }

  /** The first rule in source order that fires decides the answer, whatever later rules would say. */
  lemma FirstFiringRuleWins(query: string, i: nat)
    requires i < |Rules| && RuleFires(Lower(query), Rules, i)
    requires forall j :: 0 <= j < i ==> !RuleFires(Lower(query), Rules, j)
    ensures Classify(query) == Rules[i].topic
  {
    var m := FirstMatch(Lower(query), Rules);
    assert m.Some?;
    assert !(m.value < i);
  }

  /** A query mentioning skills is answered about skills, whatever else it mentions. */
  lemma SkillWins(query: string)
    requires Contains(Lower(query), "skill")
    ensures GenerateResponse(query) == SkillsText
  {
    assert Rules[0].keywords[0] == "skill";
    FirstFiringRuleWins(query, 0);
  }

  /** Any query containing "hi" and no keyword of an earlier rule is answered with the greeting. */
  lemma HiGreets(query: string)
    requires Contains(Lower(query), "hi")
    requires forall j :: 0 <= j < 8 ==> !RuleFires(Lower(query), Rules, j)
    ensures GenerateResponse(query) == GreetingText
  {
    assert Rules[8].keywords[1] == "hi";
    FirstFiringRuleWins(query, 8);
  }

  lemma SkillsRuleSilent(q: string)
    requires !Contains(q, "skill") && !Contains(q, "technolog") && !Contains(q, "stack")
    requires !Contains(q, "python") && !Contains(q, "know")
    ensures !RuleFires(q, Rules, 0)
  {
    assert Rules[0].keywords == ["skill", "technolog", "stack", "python", "know"];
  }

  lemma ExperienceRuleSilent(q: string)
    requires !Contains(q, "experience") && !Contains(q, "work") && !Contains(q, "job")
    requires !Contains(q, "career") && !Contains(q, "intern")
    ensures !RuleFires(q, Rules, 1)
  {
    assert Rules[1].keywords == ["experience", "work", "job", "career", "intern"];
  }

  lemma ProjectsRuleSilent(q: string)
    requires !Contains(q, "project") && !Contains(q, "portfolio") && !Contains(q, "built")
    requires !Contains(q, "created") && !Contains(q, "underwater") && !Contains(q, "nexus")
    requires !Contains(q, "opstream")
    ensures !RuleFires(q, Rules, 2)
  {
    assert Rules[2].keywords == ["project", "portfolio", "built", "created", "underwater", "nexus", "opstream"];
  }

  /** A short query none of whose characters starts a keyword of the first three rules fires none of them. */
  lemma EarlyRulesSilent(q: string)
    requires |q| < 6
    requires forall i :: 0 <= i < |q| ==> q[i] !in "stpkwjcbuno"
    ensures !RuleFires(q, Rules, 0) && !RuleFires(q, Rules, 1) && !RuleFires(q, Rules, 2)
  {
    NoFirstCharNotContains(q, "skill");
    NoFirstCharNotContains(q, "technolog");
    NoFirstCharNotContains(q, "stack");
    NoFirstCharNotContains(q, "python");
    NoFirstCharNotContains(q, "know");
    SkillsRuleSilent(q);
    NoFirstCharNotContains(q, "work");
    NoFirstCharNotContains(q, "job");
    NoFirstCharNotContains(q, "career");
    ExperienceRuleSilent(q);
    NoFirstCharNotContains(q, "project");
    NoFirstCharNotContains(q, "portfolio");
    NoFirstCharNotContains(q, "built");
    NoFirstCharNotContains(q, "created");
    NoFirstCharNotContains(q, "underwater");
    NoFirstCharNotContains(q, "nexus");
    NoFirstCharNotContains(q, "opstream");
    ProjectsRuleSilent(q);
  }

  /** A lower-case query that fires the contact rule and none of the three before it gets the contact text. */
  lemma ContactRuleWins(q: string)
    requires Lower(q) == q
    requires !RuleFires(q, Rules, 0) && !RuleFires(q, Rules, 1) && !RuleFires(q, Rules, 2)
    requires RuleFires(q, Rules, 3)
    ensures Classify(q) == Contact
    ensures GenerateResponse(q) == ContactText
  {
    forall j | 0 <= j < 3 ensures !RuleFires(Lower(q), Rules, j) {
      if j == 0 {} else if j == 1 {} else {}
    }
    FirstFiringRuleWins(q, 3);
    assert Rules[3].topic == Contact;
  }

  /** Matching is by substring, not by word: "email" contains "ai", yet it is answered with the
      contact text because the contact rule comes before the AI rule. */
  lemma EmailIsContact()
    ensures GenerateResponse("email") == ContactText
  {
    EmailLowerCase();
    EmailSkipsEarlyRules();
    EmailFiresContact();
    ContactRuleWins("email");
  }

  lemma EmailSkipsEarlyRules()
    ensures !RuleFires("email", Rules, 0) && !RuleFires("email", Rules, 1) && !RuleFires("email", Rules, 2)
  {
    EarlyRulesSilent("email");
  }

  lemma EmailLowerCase()
    ensures Lower("email") == "email"
  {
    LowerOfLowerCase("email");
  }

  lemma EmailFiresContact()
    ensures RuleFires("email", Rules, 3)
  {
    ContainsSelf("email");
    assert Rules[3].keywords[2] == "email";
  }

  /** "hire" is answered with the contact text. */
  lemma HireIsContact()
    ensures GenerateResponse("hire") == ContactText
  {
    HireLowerCase();
    EarlyRulesSilent("hire");
    HireFiresContact();
    ContactRuleWins("hire");
  }

  lemma HireLowerCase()
    ensures Lower("hire") == "hire"
  {
    LowerOfLowerCase("hire");
  }

  lemma HireFiresContact()
    ensures RuleFires("hire", Rules, 3)
  {
    ContainsSelf("hire");
    assert Rules[3].keywords[4] == "hire";
  }

  // ---------------------------------------------------------------- the bubble transform

  /** The characters the regular-expression `.` does not match. */
  predicate IsLineTerminator(c: char) {
    c == '\n' || c == '\r' || c == '\U{2028}' || c == '\U{2029}'
  }

  /** `**` starts at index `k` of `t`. */
  predicate StarsAt(t: string, k: int) {
    0 <= k && k + 2 <= |t| && t[k] == '*' && t[k + 1] == '*'
  }

  /** No line terminator among the first `j` characters of `t`. */
  predicate LineFree(t: string, j: int) {
    forall k :: 0 <= k < j && k < |t| ==> !IsLineTerminator(t[k])
  }

  /** The closing pair of a `**x**` match, searched from the start of `t`: the first `**`,
      provided no line terminator comes before it. */
  function FindClose(t: string): (r: Option<nat>)
    ensures r.Some? ==> StarsAt(t, r.value) && LineFree(t, r.value)
    ensures r.Some? ==> forall k :: 0 <= k < r.value ==> !StarsAt(t, k)
    ensures r.None? ==> forall j :: StarsAt(t, j) ==> !LineFree(t, j)
  {
    if |t| < 2 then None
    else if t[0] == '*' && t[1] == '*' then Some(0)
    else if IsLineTerminator(t[0]) then None
    else
      assert forall k :: 1 <= k ==> StarsAt(t, k) == StarsAt(t[1..], k - 1);
      assert forall k :: 1 <= k ==> LineFree(t, k) == LineFree(t[1..], k - 1);
      match FindClose(t[1..])
      case None => None
      case Some(j) => Some(j + 1)
  }

  /** The first `replace`: every `**x**` with the shortest single-line `x` becomes `<strong>x</strong>`,
      scanning left to right as a global regular-expression replace does. */
  function Bold(s: string): (r: string)
    // the rewrite never shortens a text: a match of `4 + |x|` characters becomes `17 + |x|`
    ensures |r| >= |s|
    decreases |s|
  {
    if |s| < 2 then s
    else if s[0] == '*' && s[1] == '*' && FindClose(s[2..]).Some? then
      var j := FindClose(s[2..]).value;
      "<strong>" + s[2..2 + j] + "</strong>" + Bold(s[4 + j..])
    else [s[0]] + Bold(s[1..])
  }

  /** A text without `**` is left alone. */
  lemma {:induction false} BoldNoStars(s: string)
    requires forall k :: !StarsAt(s, k)
    ensures Bold(s) == s
    decreases |s|
  {
    if |s| >= 2 {
      assert !StarsAt(s, 0);
      forall k ensures !StarsAt(s[1..], k) {
        assert StarsAt(s[1..], k) ==> StarsAt(s, k + 1);
      }
      BoldNoStars(s[1..]);
      assert s == [s[0]] + s[1..];
    }
  }

  /** A character other than `*` is copied, and the rewrite goes on after it. */
  lemma BoldCons(x: char, t: string)
    requires x != '*'
    ensures Bold([x] + t) == [x] + Bold(t)
  {
    var xt := [x] + t;
    assert xt[0] == x && xt[1..] == t;
    if |xt| < 2 {
      assert t == [];
    }
  }

  /** A first character that does not open a closed pair, a lone `*` or a `**` with no closing pair
      on its line included, is copied, and the rewrite goes on after it. With `BoldStep` this fixes
      the rewrite on every text. */
  lemma BoldCopiesUnmatched(s: string)
    requires s != []
    requires !(StarsAt(s, 0) && FindClose(s[2..]).Some?)
    ensures Bold(s) == [s[0]] + Bold(s[1..])
  {
  }

  /** A `*` followed by another character opens no pair: it is copied as it is. */
  lemma BoldLoneStar(t: string)
    requires t != [] && t[0] != '*'
    ensures Bold(['*'] + t) == ['*'] + Bold(t)
  {
    var st := ['*'] + t;
    assert !StarsAt(st, 0) && st[1..] == t;
    BoldCopiesUnmatched(st);
  }

  /** A stray `*` before a pair is kept, and the pair after it is still rewritten. */
  lemma BoldAfterStray()
    ensures Bold("*a**b**") == "*a<strong>b</strong>"
  {
    BoldStrayPrefix();
    BoldAfterText();
    StrayResultSpelled();
  }

  lemma StrayResultSpelled()
    ensures ['*'] + "a<strong>b</strong>" == "*a<strong>b</strong>"
  {
  }

  lemma BoldStrayPrefix()
    ensures Bold("*a**b**") == ['*'] + Bold("a**b**")
  {
    BoldLoneStar("a**b**");
    assert "*a**b**" == ['*'] + "a**b**" by {}
  }

  /** Text without a `*` before the rest is copied as it is, and the rewrite goes on with the rest. */
  lemma {:induction false} BoldCopiesStarFree(p: string, s: string)
    requires '*' !in p
    ensures Bold(p + s) == p + Bold(s)
    decreases |p|
  {
    if p == [] {
      assert p + s == s;
    } else {
      var x, rest := p[0], p[1..];
      assert x in p;
      assert '*' !in rest by {
        assert forall i :: 0 <= i < |rest| ==> rest[i] == p[i + 1];
      }
      calc {
        Bold(p + s);
        { assert p + s == [x] + (rest + s); }
        Bold([x] + (rest + s));
        { BoldCons(x, rest + s); }
        [x] + Bold(rest + s);
        { BoldCopiesStarFree(rest, s); }
        [x] + (rest + Bold(s));
        { assert p == [x] + rest; }
        p + Bold(s);
      }
    }
  }

  /** A pair after ordinary text is rewritten too: `a**b**` becomes `a<strong>b</strong>`. */
  lemma BoldAfterText()
    ensures Bold("a**b**") == "a<strong>b</strong>"
  {
    BoldCons('a', "**b**");
    BoldPairOnly();
    assert ['a'] + "**b**" == "a**b**";
    assert ['a'] + "<strong>b</strong>" == "a<strong>b</strong>";
  }

  lemma BoldPairOnly()
    ensures Bold("**b**") == "<strong>b</strong>"
  {
    assert "**b**" == "**" + "b" + "**" + "";
    assert !StarsAt("b" + "**" + "", 0);
    BoldStep("b", "");
    assert "<strong>" + "b" + "</strong>" + "" == "<strong>b</strong>";
  }

  /** The first `**` after which no line break came is the closing pair `FindClose` reports. */
  lemma FindCloseFirst(t: string, v: nat)
    requires StarsAt(t, v) && LineFree(t, v)
    requires forall k :: 0 <= k < v ==> !StarsAt(t, k)
    ensures FindClose(t) == Some(v)
  {
    var m := FindClose(t);
    assert m.Some?;
    assert !(m.value < v);
  }

  /** A `**x**` pair whose inner text has no line break and no earlier `**` becomes
      `<strong>x</strong>`, and the scan goes on after the closing pair: the match is non-greedy. */
  lemma BoldStep(x: string, rest: string)
    requires forall k :: 0 <= k < |x| ==> !IsLineTerminator(x[k])
    requires forall k :: 0 <= k < |x| ==> !StarsAt(x + "**" + rest, k)
    ensures Bold("**" + x + "**" + rest) == "<strong>" + x + "</strong>" + Bold(rest)
  {
    var t := x + "**" + rest;
    var s := "**" + t;
    assert "**" + x + "**" + rest == s;
    assert |s| >= 2 && s[0] == '*' && s[1] == '*';
    assert s[2..] == t;
    assert t[|x|] == '*' && t[|x| + 1] == '*';
    assert forall k :: 0 <= k < |x| ==> t[k] == x[k];
    FindCloseFirst(t, |x|);
    assert s[2..2 + |x|] == x;
    assert s[4 + |x|..] == rest;
  }

  const LineBreak: string := "<br />"
  const BulletSpace: string := "• "

  /** The HTML put into a message bubble: bold pairs, then line breaks, then the bullet rewrite
      (which replaces "• " by itself). */
  function BubbleHtml(content: string): (r: string)
    ensures '\n' !in r
  {
    var broken := ReplaceAll(Bold(content), "\n", LineBreak);
    ReplaceCharRemovesIt(Bold(content), '\n', LineBreak);
    ReplaceAllSelf(broken, BulletSpace);
    ReplaceAll(broken, BulletSpace, BulletSpace)
  }

  /** The bullet rewrite changes nothing: the bubble is bold pairs followed by line breaks. */
  lemma BubbleHtmlIsBoldThenBreaks(content: string)
    ensures BubbleHtml(content) == ReplaceAll(Bold(content), "\n", LineBreak)
  {
    ReplaceAllSelf(ReplaceAll(Bold(content), "\n", LineBreak), BulletSpace);
  }

  /** A single-line text without `**` is shown as it is. */
  lemma PlainBubble(content: string)
    requires '\n' !in content
    requires forall k :: !StarsAt(content, k)
    ensures BubbleHtml(content) == content
  {
    BoldNoStars(content);
    ReplaceAbsentChar(content, '\n', LineBreak);
    BubbleHtmlIsBoldThenBreaks(content);
  }

  // ---------------------------------------------------------------- reset

  /** A message of the offline widget; the timestamp is not modelled. */
  datatype Message = Message(id: string, role: Role, content: string)

  const WelcomeText: string := @"👋 Hi! I'm Sreeshanth's AI assistant. Ask me anything about his skills, experience, or projects!"

  /** `resetChat()`: the list becomes the single welcome message. */
  function ResetChat(): (r: seq<Message>)
    ensures |r| == 1 && r[0].id == "welcome" && r[0].role == Assistant && r[0].content == WelcomeText
  {
    [Message("welcome", Assistant, WelcomeText)]
  }
}

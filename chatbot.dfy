/**
 * The scripted chat widget of `Chatbot.tsx`: the canned reply table, the
 * random pick from a reply list, the keyword classifier with its fixed
 * priority order, and the message log the component keeps.
 *
 * `Math.random()` becomes a parameter `r` with `0.0 <= r < 1.0`; the typing
 * delay becomes a separate step that delivers one scheduled reply.
 */
module Chatbot {
  import opened Text

  datatype Option<T> = None | Some(value: T)

  /** The keys of `predefinedResponses`. */
  datatype Category = Greeting | SweetPotato | Recipes | Cooking | Health

  /** `predefinedResponses[c]`. */
  function Responses(c: Category): (replies: seq<string>)
    ensures |replies| == 3
  {
    match c
    case Greeting => [GreetingReply0, GreetingReply1, GreetingReply2]
    case SweetPotato => [SweetPotatoReply0, SweetPotatoReply1, SweetPotatoReply2]
    case Recipes => [RecipesReply0, RecipesReply1, RecipesReply2]
    case Cooking => [CookingReply0, CookingReply1, CookingReply2]
    case Health => [HealthReply0, HealthReply1, HealthReply2]
  }

  // The entries of `predefinedResponses`, in order.
  const GreetingReply0: string :=
    "Hi there! I'm Chi Lan's cooking assistant. How can I help you today? \U{1F360}"
  const GreetingReply1: string :=
    "Hello! Want to know about sweet potato recipes or cooking tips? \U{2728}"
  const GreetingReply2: string :=
    "Hey! I'm here to help with your cooking questions! \U{1F469}\U{200D}\U{1F373}"
  const SweetPotatoReply0: string :=
    "Sweet potatoes are amazing! They're rich in beta-carotene, fiber, and natural sweetness. What would you like to cook?"
  const SweetPotatoReply1: string :=
    "I love sweet potatoes too! Try roasting them with a drizzle of honey and cinnamon."
  const SweetPotatoReply2: string :=
    "Sweet potatoes are so versatile! Perfect for both sweet and savory dishes."
  const RecipesReply0: string :=
    "Chi Lan has some fantastic recipes! Try the Roasted Sweet Potato with Coconut - it's crispy outside and creamy inside!"
  const RecipesReply1: string :=
    "The Sweet Potato Coconut Che is a traditional Vietnamese dessert that's absolutely delicious!"
  const RecipesReply2: string :=
    "For a quick snack, the Crispy Sweet Potato Fries are perfect - golden and seasoned to perfection!"
  const CookingReply0: string :=
    "Here's a pro tip from Chi Lan: Always choose firm sweet potatoes for the best texture!"
  const CookingReply1: string :=
    "Don't overcook sweet potatoes in desserts - they should hold their shape!"
  const CookingReply2: string :=
    "For extra crispy fries, soak the sweet potato strips in cold water before cooking!"
  const HealthReply0: string :=
    "Sweet potatoes are nutritional powerhouses! They're packed with Vitamin A, fiber, and potassium."
  const HealthReply1: string :=
    "They're great for your immune system and provide natural energy throughout the day!"
  const HealthReply2: string :=
    "Sweet potatoes contain antioxidants that help protect your cells and support overall health."

  /** The reply given when no category matches. */
  const DefaultReply: string :=
    "That's interesting! Tell me more about what you'd like to cook with sweet potatoes, or ask me about Chi Lan's recipes! \U{1F360}\U{2728}"

  /** `Math.floor(r * n)`: the index a random draw `r` selects from a list of length `n`. */
  function PickIndex(r: real, n: nat): (i: int)
    requires 0.0 <= r < 1.0
    requires n > 0
    ensures 0 <= i < n
    ensures i as real <= r * n as real < i as real + 1.0
  {
    assert r * n as real < n as real by {
      assert (1.0 - r) * n as real > 0.0;
    }
    (r * n as real).Floor
  }

  /** `getRandomResponse(c)`: the reply of category `c` that the draw `r` selects. */
  function GetRandomResponse(c: Category, r: real): (reply: string)
    requires 0.0 <= r < 1.0
    ensures reply in Responses(c)
  {
    var replies := Responses(c);
    replies[PickIndex(r, |replies|)]
  }

  /** `processMessage`: the tests of the source, in the source's order. */
  function ProcessMessage(u: Unicode, message: string, r: real): (reply: string)
    requires 0.0 <= r < 1.0
    ensures reply == Reply(Classify(Lower(u, message)), r)
    ensures Classify(Lower(u, message)).None? ==> reply == DefaultReply
    ensures Classify(Lower(u, message)).Some? ==> reply in Responses(Classify(Lower(u, message)).value)
  {
    var lowerMessage := Lower(u, message);
    ClassifyUnfolded(lowerMessage);
    MatchesGreeting(lowerMessage);
    MatchesSweetPotato(lowerMessage);
    MatchesRecipes(lowerMessage);
    MatchesCooking(lowerMessage);
    MatchesHealth(lowerMessage);
    if Includes(lowerMessage, "hello") || Includes(lowerMessage, "hi") || Includes(lowerMessage, "hey") then
      GetRandomResponse(Greeting, r)
    else if Includes(lowerMessage, "sweet potato") || Includes(lowerMessage, "khoai ng\U{1ECD}t") then
      GetRandomResponse(SweetPotato, r)
    else if Includes(lowerMessage, "recipe") || Includes(lowerMessage, "cook") || Includes(lowerMessage, "dish") then
      GetRandomResponse(Recipes, r)
    else if Includes(lowerMessage, "tip") || Includes(lowerMessage, "how to") || Includes(lowerMessage, "help") then
      GetRandomResponse(Cooking, r)
    else if Includes(lowerMessage, "health") || Includes(lowerMessage, "nutrition") || Includes(lowerMessage, "benefit") then
      GetRandomResponse(Health, r)
    else
      DefaultReply
  }

  // ---------------------------------------------------------------------
  // The classifier as a table: triggers per category and a priority order

  /** The substrings whose presence selects each category. */
  function Triggers(c: Category): (triggers: seq<string>)
    ensures triggers != []
  {
    match c
    case Greeting => ["hello", "hi", "hey"]
    case SweetPotato => ["sweet potato", "khoai ng\U{1ECD}t"]
    case Recipes => ["recipe", "cook", "dish"]
    case Cooking => ["tip", "how to", "help"]
    case Health => ["health", "nutrition", "benefit"]
  }

  /** The order in which the categories are tried. */
  const Priority: seq<Category> := [Greeting, SweetPotato, Recipes, Cooking, Health]

  /** Where `c` stands in `Priority`. */
  function PriorityIndex(c: Category): (k: nat)
    ensures k < |Priority| && Priority[k] == c
    ensures forall j :: 0 <= j < |Priority| && Priority[j] == c ==> j == k
  {
    match c
    case Greeting => 0
    case SweetPotato => 1
    case Recipes => 2
    case Cooking => 3
    case Health => 4
  }

  /** The lowercased input contains one of the triggers of `c`. */
  predicate Matches(lowered: string, c: Category) {
    exists t :: t in Triggers(c) && Includes(lowered, t)
  }

  /** The first category of `order` whose triggers occur in `lowered`. */
  function FirstMatch(lowered: string, order: seq<Category>): (found: Option<Category>)
    ensures found.None? <==> forall k :: 0 <= k < |order| ==> !Matches(lowered, order[k])
    ensures found.Some? ==> exists k :: (0 <= k < |order| && order[k] == found.value
      && Matches(lowered, order[k]) && forall j :: 0 <= j < k ==> !Matches(lowered, order[j]))
  {
    if order == [] then None
    else if Matches(lowered, order[0]) then Some(order[0])
    else
      var rest := FirstMatch(lowered, order[1..]);
      FirstMatchShift(lowered, order, rest);
      rest
  }

  /** When the head of `order` does not match, the first match of the tail,
      if any, is the first match of the whole of `order`. */
  lemma FirstMatchShift(lowered: string, order: seq<Category>, rest: Option<Category>)
    requires order != [] && !Matches(lowered, order[0])
    requires rest.None? <==> forall k :: 0 <= k < |order[1..]| ==> !Matches(lowered, order[1..][k])
    requires rest.Some? ==> exists k :: (0 <= k < |order[1..]| && order[1..][k] == rest.value
      && Matches(lowered, order[1..][k]) && forall j :: 0 <= j < k ==> !Matches(lowered, order[1..][j]))
    ensures rest.None? <==> forall k :: 0 <= k < |order| ==> !Matches(lowered, order[k])
    ensures rest.Some? ==> exists k :: (0 <= k < |order| && order[k] == rest.value
      && Matches(lowered, order[k]) && forall j :: 0 <= j < k ==> !Matches(lowered, order[j]))
  {
    var tail := order[1..];
    if rest.Some? {
      var k :| 0 <= k < |tail| && tail[k] == rest.value
        && Matches(lowered, tail[k]) && forall j :: 0 <= j < k ==> !Matches(lowered, tail[j]);
      FirstMatchShiftFound(lowered, order, k);
    } else {
      NoMatchShift(lowered, order);
    }
  }

  lemma FirstMatchShiftFound(lowered: string, order: seq<Category>, k: nat)
    requires order != [] && !Matches(lowered, order[0])
    requires k < |order[1..]| && Matches(lowered, order[1..][k])
    requires forall j :: 0 <= j < k ==> !Matches(lowered, order[1..][j])
    ensures order[k + 1] == order[1..][k]
    ensures forall j :: 0 <= j < k + 1 ==> !Matches(lowered, order[j])
  {
    forall j | 0 <= j < k + 1 ensures !Matches(lowered, order[j]) {
      if j > 0 {
        assert order[j] == order[1..][j - 1];
      }
    }
  }

  lemma NoMatchShift(lowered: string, order: seq<Category>)
    requires order != [] && !Matches(lowered, order[0])
    ensures (forall k :: 0 <= k < |order[1..]| ==> !Matches(lowered, order[1..][k]))
      <==> forall k :: 0 <= k < |order| ==> !Matches(lowered, order[k])
  {
    if forall k :: 0 <= k < |order[1..]| ==> !Matches(lowered, order[1..][k]) {
      forall k | 0 <= k < |order| ensures !Matches(lowered, order[k]) {
        if k > 0 {
          assert order[k] == order[1..][k - 1];
        }
      }
    }
  }

  /** The category a lowercased input is answered from, if any. */
  function Classify(lowered: string): Option<Category> {
    FirstMatch(lowered, Priority)
  }

  /** The reply a classification leads to under the draw `r`. */
  function Reply(category: Option<Category>, r: real): string
    requires 0.0 <= r < 1.0
  {
    match category
    case None => DefaultReply
    case Some(c) => GetRandomResponse(c, r)
  }

  lemma MatchesListed(s: string, c: Category)
    ensures Matches(s, c) <==> exists k :: 0 <= k < |Triggers(c)| && Includes(s, Triggers(c)[k])
  {
    if Matches(s, c) {
      var t :| t in Triggers(c) && Includes(s, t);
      var k :| 0 <= k < |Triggers(c)| && Triggers(c)[k] == t;
    }
  }

  // The trigger test of each category, spelled out as in the source.

  lemma MatchesGreeting(s: string)
    ensures Matches(s, Greeting) <==> Includes(s, "hello") || Includes(s, "hi") || Includes(s, "hey")
  {
    MatchesListed(s, Greeting);
  }

  lemma MatchesSweetPotato(s: string)
    ensures Matches(s, SweetPotato) <==> Includes(s, "sweet potato") || Includes(s, "khoai ng\U{1ECD}t")
  {
    MatchesListed(s, SweetPotato);
  }

  lemma MatchesRecipes(s: string)
    ensures Matches(s, Recipes) <==> Includes(s, "recipe") || Includes(s, "cook") || Includes(s, "dish")
  {
    MatchesListed(s, Recipes);
  }

  lemma MatchesCooking(s: string)
    ensures Matches(s, Cooking) <==> Includes(s, "tip") || Includes(s, "how to") || Includes(s, "help")
  {
    MatchesListed(s, Cooking);
  }

  lemma MatchesHealth(s: string)
    ensures Matches(s, Health) <==> Includes(s, "health") || Includes(s, "nutrition") || Includes(s, "benefit")
  {
    MatchesListed(s, Health);
  }

  /** `Classify` tries the categories one after another in priority order. */
  lemma ClassifyUnfolded(s: string)
    ensures Classify(s) ==
      if Matches(s, Greeting) then Some(Greeting)
      else if Matches(s, SweetPotato) then Some(SweetPotato)
      else if Matches(s, Recipes) then Some(Recipes)
      else if Matches(s, Cooking) then Some(Cooking)
      else if Matches(s, Health) then Some(Health)
      else None
  {
    var p1 := [SweetPotato, Recipes, Cooking, Health];
    var p2 := [Recipes, Cooking, Health];
    var p3 := [Cooking, Health];
    var p4 := [Health];
    assert Priority[1..] == p1 && p1[1..] == p2 && p2[1..] == p3 && p3[1..] == p4 && p4[1..] == [];
    assert FirstMatch(s, p4) == if Matches(s, Health) then Some(Health) else None;
    assert FirstMatch(s, p3) == if Matches(s, Cooking) then Some(Cooking) else FirstMatch(s, p4);
    assert FirstMatch(s, p2) == if Matches(s, Recipes) then Some(Recipes) else FirstMatch(s, p3);
    assert FirstMatch(s, p1) == if Matches(s, SweetPotato) then Some(SweetPotato) else FirstMatch(s, p2);
  }

  // ---------------------------------------------------------------------
  // Properties of the responder

  /** A reply names its category: no two categories share a reply, and the
      default reply belongs to none. */
  lemma RepliesDistinct(c: Category, d: Category)
    ensures DefaultReply !in Responses(c)
    ensures c != d ==> forall x :: x in Responses(c) ==> x !in Responses(d)
  {
  }

  /** The reply comes from category `c` exactly when `c` is the first category,
      in priority order, whose triggers occur in the lowercased input. */
  lemma ReplyCategoryIff(u: Unicode, message: string, r: real, c: Category)
    requires 0.0 <= r < 1.0
    ensures ProcessMessage(u, message, r) in Responses(c) <==> Classify(Lower(u, message)) == Some(c)
  {
    var found := Classify(Lower(u, message));
    if found.Some? && found.value != c {
      RepliesDistinct(found.value, c);
    }
    RepliesDistinct(c, c);
  }

  /** No category is found exactly when none of the fourteen triggers occurs. */
  lemma ClassifyNoneIff(lowered: string)
    ensures Classify(lowered).None? <==> forall c: Category :: !Matches(lowered, c)
  {
    if Classify(lowered).None? {
      forall c: Category ensures !Matches(lowered, c) {
        NoneMeansNoMatch(lowered, c);
      }
    }
  }

  lemma NoneMeansNoMatch(lowered: string, c: Category)
    requires Classify(lowered).None?
    ensures !Matches(lowered, c)
  {
    assert Priority[PriorityIndex(c)] == c;
  }

  /** The default reply is given exactly when no trigger occurs, whatever the draw. */
  lemma DefaultIffNoTrigger(u: Unicode, message: string, r: real)
    requires 0.0 <= r < 1.0
    ensures ProcessMessage(u, message, r) == DefaultReply <==> forall c: Category :: !Matches(Lower(u, message), c)
  {
    var found := Classify(Lower(u, message));
    ClassifyNoneIff(Lower(u, message));
    if found.Some? {
      RepliesDistinct(found.value, found.value);
    }
  }

  /** Some category matching means the answer comes from it or from one tried before it. */
  lemma EarlierCategoryWins(lowered: string, k: nat)
    requires k < |Priority| && Matches(lowered, Priority[k])
    ensures Classify(lowered).Some?
    ensures exists j :: 0 <= j <= k && Priority[j] == Classify(lowered).value
  {
    var found := Classify(lowered);
    var j :| 0 <= j < |Priority| && Priority[j] == found.value
      && Matches(lowered, Priority[j]) && forall i :: 0 <= i < j ==> !Matches(lowered, Priority[i]);
    assert j <= k;
  }

  /** The answer comes from a category exactly when that category matches and
      none tried before it does. */
  lemma ClassifyFirstMatch(lowered: string, k: nat)
    requires k < |Priority|
    ensures Classify(lowered) == Some(Priority[k]) <==>
      Matches(lowered, Priority[k]) && forall j :: 0 <= j < k ==> !Matches(lowered, Priority[j])
  {
    var found := Classify(lowered);
    if found.Some? {
      var j :| 0 <= j < |Priority| && Priority[j] == found.value
        && Matches(lowered, Priority[j]) && forall i :: 0 <= i < j ==> !Matches(lowered, Priority[i]);
      var kk := PriorityIndex(Priority[k]);
      assert kk == k;
      if found.value == Priority[k] {
        assert PriorityIndex(found.value) == j;
      } else if Matches(lowered, Priority[k]) {
        assert j != k;
        assert j < k;
      }
    }
  }

  /** A greeting trigger wins over every other keyword: "hi" inside "this" or "chips" is enough. */
  lemma HiMeansGreeting(lowered: string)
    requires Includes(lowered, "hi")
    ensures Classify(lowered) == Some(Greeting)
  {
    ClassifyUnfolded(lowered);
    MatchesGreeting(lowered);
  }

  /** An input containing "cook" is never answered from the cooking-tips list:
      the "cook" test of `recipes` comes before the tests of `cooking`. */
  lemma CookNeverCookingTips(lowered: string)
    requires Includes(lowered, "cook")
    ensures Classify(lowered) != Some(Cooking)
    ensures Classify(lowered) in {Some(Greeting), Some(SweetPotato), Some(Recipes)}
  {
    ClassifyUnfolded(lowered);
    MatchesRecipes(lowered);
  }

  /** Inputs that differ only in the case of ASCII letters get the same reply. */
  lemma ProcessMessageIgnoresCase(u: Unicode, a: string, b: string, r: real)
    requires Conforming(u)
    requires SameUpToAsciiCase(a, b)
    requires 0.0 <= r < 1.0
    ensures ProcessMessage(u, a, r) == ProcessMessage(u, b, r)
  {
    LowerIgnoresAsciiCase(u, a, b);
  }

  // ---------------------------------------------------------------------
  // The message log of the component

  /** A logged message; its `id` and `timestamp` come from the clock and are not modelled. */
  datatype Message = Message(text: string, isBot: bool)

  /** The text holds nothing but whitespace (`!s.trim()`, by `TrimEmptyIff`). */
  predicate IsBlank(s: string) {
    forall i :: 0 <= i < |s| ==> IsWhitespace(s[i])
  }

  /** A text `processMessage` can return. */
  ghost predicate IsCannedReply(t: string) {
    t == DefaultReply || exists c: Category :: t in Responses(c)
  }

  /** What the log may hold: non-blank user input and canned replies. */
  ghost predicate MessageOk(m: Message) {
    if m.isBot then IsCannedReply(m.text) else !IsBlank(m.text)
  }

  ghost predicate LogOk(ms: seq<Message>) {
    forall i :: 0 <= i < |ms| ==> MessageOk(ms[i])
  }

  /** Every reply `processMessage` gives is a canned one. */
  lemma ProcessMessageIsCanned(u: Unicode, message: string, r: real)
    requires 0.0 <= r < 1.0
    ensures IsCannedReply(ProcessMessage(u, message, r))
  {
    var found := Classify(Lower(u, message));
    if found.Some? {
      assert ProcessMessage(u, message, r) in Responses(found.value);
    }
  }

  /** Appending one message adds it to the right count and keeps the log well formed. */
  lemma LogAppend(ms: seq<Message>, m: Message)
    requires LogOk(ms) && MessageOk(m)
    ensures LogOk(ms + [m])
    ensures CountBot(ms + [m]) == CountBot(ms) + (if m.isBot then 1 else 0)
    ensures CountUser(ms + [m]) == CountUser(ms) + (if m.isBot then 0 else 1)
  {
    assert (ms + [m])[..|ms|] == ms;
  }

  /** No pending input is blank. */
  ghost predicate NoneBlank(ps: seq<string>) {
    forall i :: 0 <= i < |ps| ==> !IsBlank(ps[i])
  }

  lemma NoneBlankAppend(ps: seq<string>, x: string)
    requires NoneBlank(ps) && !IsBlank(x)
    ensures NoneBlank(ps + [x])
  {
    forall i | 0 <= i < |ps + [x]| ensures !IsBlank((ps + [x])[i]) {
      if i < |ps| {
        assert (ps + [x])[i] == ps[i];
      }
    }
  }

  lemma NoneBlankRemove(ps: seq<string>, k: nat)
    requires NoneBlank(ps) && k < |ps|
    ensures NoneBlank(ps[..k] + ps[k + 1..])
  {
    var rest := ps[..k] + ps[k + 1..];
    forall i | 0 <= i < |rest| ensures !IsBlank(rest[i]) {
      assert rest[i] == if i < k then ps[i] else ps[i + 1];
    }
  }

  function CountBot(ms: seq<Message>): nat {
    if ms == [] then 0 else CountBot(ms[..|ms| - 1]) + (if ms[|ms| - 1].isBot then 1 else 0)
  }

  function CountUser(ms: seq<Message>): nat {
    if ms == [] then 0 else CountUser(ms[..|ms| - 1]) + (if ms[|ms| - 1].isBot then 0 else 1)
  }

  /**
   * The state of one `Chatbot` component: the `messages`, `inputValue` and
   * `isTyping` state variables, plus `pending`, the submitted inputs whose
   * reply timer has been set and has not fired yet, in submission order.
   * Nothing stops a second submission while a reply is due, and each timer
   * has its own random delay, so replies may be delivered in any order.
   */
  class ChatSession {
    const unicode: Unicode
    var messages: seq<Message>
    var inputValue: string
    var isTyping: bool
    var pending: seq<string>

    /** Every user message is answered once or still due; the typing
        indicator is only on while some reply is due; the log holds only
        non-blank user input and canned replies. */
    ghost predicate Valid()
      reads this
    {
      && CountUser(messages) == CountBot(messages) + |pending|
      && (isTyping ==> pending != [])
      && LogOk(messages)
      && NoneBlank(pending)
    }

    constructor (unicode: Unicode)
      ensures Valid()
      ensures this.unicode == unicode
      ensures messages == [] && inputValue == [] && !isTyping && pending == []
    {
      this.unicode := unicode;
      messages := [];
      inputValue := [];
      isTyping := false;
      pending := [];
    }

    /** The input field's `onChange`. */
    method SetInput(value: string)
      requires Valid()
      modifies this
      ensures Valid()
      ensures inputValue == value
      ensures messages == old(messages) && isTyping == old(isTyping) && pending == old(pending)
    {
      inputValue := value;
    }

    /** `handleSendMessage` up to the point where it sets the reply timer. */
    method SendMessage()
      requires Valid()
      modifies this
      ensures Valid()
      ensures IsBlank(old(inputValue)) ==>
        messages == old(messages) && inputValue == old(inputValue)
        && isTyping == old(isTyping) && pending == old(pending)
      ensures !IsBlank(old(inputValue)) ==>
        messages == old(messages) + [Message(old(inputValue), false)] && inputValue == []
        && isTyping && pending == old(pending) + [old(inputValue)]
    {
      if IsBlank(inputValue) {
        return;
      }
      var submitted := inputValue;
      LogAppend(messages, Message(submitted, false));
      messages := messages + [Message(submitted, false)];
      inputValue := [];
      isTyping := true;
      NoneBlankAppend(pending, submitted);
      pending := pending + [submitted];
    }

    /** The reply timer of the `k`-th pending submission fires; `r` is the
        value of `Math.random()` drawn by `getRandomResponse`. */
    method DeliverReply(k: nat, r: real)
      requires Valid()
      requires k < |pending|
      requires 0.0 <= r < 1.0
      modifies this
      ensures Valid()
      ensures messages == old(messages) + [Message(ProcessMessage(unicode, old(pending[k]), r), true)]
      ensures !isTyping
      ensures pending == old(pending[..k] + pending[k + 1..])
      ensures inputValue == old(inputValue)
    {
      var botResponse := ProcessMessage(unicode, pending[k], r);
      ProcessMessageIsCanned(unicode, pending[k], r);
      LogAppend(messages, Message(botResponse, true));
      messages := messages + [Message(botResponse, true)];
      isTyping := false;
      NoneBlankRemove(pending, k);
      pending := pending[..k] + pending[k + 1..];
    }
  }
}

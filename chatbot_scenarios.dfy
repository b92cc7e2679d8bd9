/**
 * Concrete conversations with the chat widget: the replies particular
 * inputs get, and what the message log does with a blank submission and
 * with two submissions in quick succession.
 */
module ChatbotScenarios {
  import opened Text
  import opened Chatbot

  /** "hi there" is answered with a greeting. */
  lemma HiThere(u: Unicode, message: string, r: real)
    requires Conforming(u) && 0.0 <= r < 1.0
    requires message == "hi there"
    ensures ProcessMessage(u, message, r) in Responses(Greeting)
  {
    HiThereFacts(message);
    HiMeansGreeting(message);
    LowercaseReply(u, message, r, Greeting);
  }

  lemma HiThereFacts(s: string)
    requires s == "hi there"
    ensures OccursAt(s, "hi", 0) && Includes(s, "hi") && LowerAscii(s)
  {
    assert OccursAt(s, "hi", 0);
  }

  /** "hi" inside another word is still a greeting: "this dish" and "chips recipe"
      get a greeting although they also name a dish or a recipe. */
  lemma HiInsideWords(u: Unicode, message: string, r: real)
    requires Conforming(u) && 0.0 <= r < 1.0
    requires message == "this dish" || message == "chips recipe"
    ensures ProcessMessage(u, message, r) in Responses(Greeting)
  {
    HiInsideWordsFacts(message);
    HiMeansGreeting(message);
    LowercaseReply(u, message, r, Greeting);
  }

  lemma HiInsideWordsFacts(s: string)
    requires s == "this dish" || s == "chips recipe"
    ensures OccursAt(s, "hi", 1) && Includes(s, "hi") && LowerAscii(s)
  {
    assert OccursAt(s, "hi", 1);
  }

  /** "cooking tip" is answered from the recipe list, not the cooking-tips list. */
  lemma CookingTip(u: Unicode, message: string, r: real)
    requires Conforming(u) && 0.0 <= r < 1.0
    requires message == "cooking tip"
    ensures ProcessMessage(u, message, r) in Responses(Recipes)
  {
    CookingTipClassified(message);
    LowercaseReply(u, message, r, Recipes);
  }

  lemma CookingTipClassified(s: string)
    requires s == "cooking tip"
    ensures Classify(s) == Some(Recipes) && LowerAscii(s)
  {
    CookingTipNoGreeting(s);
    CookingTipNoSweetPotato(s);
    CookingTipCook(s);
    ClassifyFirstMatch(s, 2);
  }

  lemma CookingTipNoGreeting(s: string)
    requires s == "cooking tip"
    ensures !Matches(s, Greeting)
  {
    IncludesMissingChar(s, "hello", 'h');
    IncludesMissingChar(s, "hi", 'h');
    IncludesMissingChar(s, "hey", 'h');
    MatchesGreeting(s);
  }

  lemma CookingTipNoSweetPotato(s: string)
    requires s == "cooking tip"
    ensures !Matches(s, SweetPotato)
  {
    IncludesMissingChar(s, "sweet potato", 'w');
    IncludesMissingChar(s, "khoai ng\U{1ECD}t", 'h');
    MatchesSweetPotato(s);
  }

  lemma CookingTipCook(s: string)
    requires s == "cooking tip"
    ensures Matches(s, Recipes)
  {
    assert OccursAt(s, "cook", 0);
    MatchesRecipes(s);
  }

  /** "tell me a sweet potato recipe" names a recipe, but "sweet potato" is
      tested first, so the reply is about sweet potatoes. */
  lemma SweetPotatoRecipe(u: Unicode, message: string, r: real)
    requires Conforming(u) && 0.0 <= r < 1.0
    requires message == "tell me a sweet potato recipe"
    ensures ProcessMessage(u, message, r) in Responses(SweetPotato)
    ensures ProcessMessage(u, message, r) !in Responses(Recipes)
  {
    SweetPotatoRecipeClassified(message);
    SweetPotatoRecipeFacts(message);
    LowercaseReply(u, message, r, SweetPotato);
    ReplyCategoryIff(u, message, r, Recipes);
  }

  lemma SweetPotatoRecipeClassified(s: string)
    requires s == "tell me a sweet potato recipe"
    ensures Classify(s) == Some(SweetPotato)
  {
    SweetPotatoRecipeFacts(s);
    NoGreetingWithoutH(s);
    SweetPotatoInside(s, "tell me a ", " recipe");
    ClassifyFirstMatch(s, 1);
  }

  lemma SweetPotatoRecipeFacts(s: string)
    requires s == "tell me a sweet potato recipe"
    ensures s == "tell me a " + "sweet potato" + " recipe" && 'h' !in s && LowerAscii(s)
  {
  }

  /** Input that contains no trigger gets exactly the default reply, whatever the draw. */
  lemma Gibberish(u: Unicode, message: string, r: real)
    requires Conforming(u) && 0.0 <= r < 1.0
    requires message == "random gibberish xyz"
    ensures ProcessMessage(u, message, r) == DefaultReply
  {
    GibberishClassified(message);
    LowerOfLowerAscii(u, message);
  }

  lemma GibberishClassified(s: string)
    requires s == "random gibberish xyz"
    ensures Classify(s).None? && LowerAscii(s)
  {
    GibberishLacks(s, 'l');
    GibberishLacks(s, 'w');
    GibberishLacks(s, 'k');
    GibberishLacks(s, 'c');
    GibberishLacks(s, 't');
    GibberishLacks(s, 'u');
    GibberishLacks(s, 'f');
    GibberishNoShortTrigger(s);
    NoTrigger(s);
  }

  lemma GibberishLacks(s: string, c: char)
    requires s == "random gibberish xyz"
    requires c == 'l' || c == 'w' || c == 'k' || c == 'c' || c == 't' || c == 'u' || c == 'f'
    ensures c !in s
  {
  }

  /** "hi", "hey" and "dish" need a closer look, word by word. */
  lemma GibberishNoShortTrigger(s: string)
    requires s == "random gibberish xyz"
    ensures !Includes(s, "hi") && !Includes(s, "hey") && !Includes(s, "dish")
  {
    assert s == "random" + [' '] + ("gibberish" + [' '] + "xyz");
    GibberishNoHi();
    NotInWords("random", "gibberish", "xyz", "hi");
    GibberishNoHey();
    NotInWords("random", "gibberish", "xyz", "hey");
    GibberishNoDish();
    NotInWords("random", "gibberish", "xyz", "dish");
  }

  lemma GibberishNoHi()
    ensures !Includes("random", "hi") && !Includes("gibberish", "hi") && !Includes("xyz", "hi")
  {
    IncludesMissingChar("random", "hi", 'h');
    IncludesMissingChar("xyz", "hi", 'h');
    // the only 'h' of "gibberish" is its last letter
    assert "gibberish" == "gibberi" + ['s'] + "h";
    IncludesMissingChar("gibberi", "hi", 'h');
    if Includes("h", "hi") {
      IncludesLength("h", "hi");
    }
    NotAcross2("gibberi", 's', "h", "hi");
  }

  lemma GibberishNoHey()
    ensures !Includes("random", "hey") && !Includes("gibberish", "hey") && !Includes("xyz", "hey")
  {
    IncludesMissingChar("random", "hey", 'h');
    IncludesMissingChar("gibberish", "hey", 'y');
    IncludesMissingChar("xyz", "hey", 'h');
  }

  lemma GibberishNoDish()
    ensures !Includes("random", "dish") && !Includes("gibberish", "dish") && !Includes("xyz", "dish")
  {
    IncludesMissingChar("random", "dish", 'i');
    IncludesMissingChar("gibberish", "dish", 'd');
    IncludesMissingChar("xyz", "dish", 'i');
  }

  /** Letter case does not matter: "HELLO", "Hello" and "hello" get the same greeting. */
  lemma HelloInAnyCase(u: Unicode, message: string, hello: string, r: real)
    requires Conforming(u) && 0.0 <= r < 1.0
    requires message == "HELLO" || message == "Hello" || message == "hello"
    requires hello == "hello"
    ensures ProcessMessage(u, message, r) == ProcessMessage(u, hello, r)
    ensures ProcessMessage(u, message, r) in Responses(Greeting)
  {
    HelloSameCase(message, hello);
    ProcessMessageIgnoresCase(u, message, hello, r);
    HelloClassified(hello);
    LowercaseReply(u, hello, r, Greeting);
  }

  lemma HelloSameCase(message: string, hello: string)
    requires message == "HELLO" || message == "Hello" || message == "hello"
    requires hello == "hello"
    ensures SameUpToAsciiCase(message, hello)
  {
  }

  lemma HelloClassified(s: string)
    requires s == "hello"
    ensures Classify(s) == Some(Greeting) && LowerAscii(s)
  {
    assert OccursAt(s, "hello", 0);
    MatchesGreeting(s);
    ClassifyFirstMatch(s, 0);
  }

  // ---------------------------------------------------------------------
  // Steps shared by the scenarios

  /** Every character is ASCII and none is an upper-case letter. */
  predicate LowerAscii(s: string) {
    forall i :: 0 <= i < |s| ==> IsAscii(s[i]) && !IsAsciiUpper(s[i])
  }

  /** A message already in lower-case ASCII is classified as it stands. */
  lemma LowercaseReply(u: Unicode, message: string, r: real, c: Category)
    requires Conforming(u) && 0.0 <= r < 1.0
    requires LowerAscii(message)
    requires Classify(message) == Some(c)
    ensures Lower(u, message) == message
    ensures ProcessMessage(u, message, r) in Responses(c)
  {
    LowerOfLowerAscii(u, message);
    ReplyCategoryIff(u, message, r, c);
  }

  /** Every greeting trigger holds an 'h'. */
  lemma NoGreetingWithoutH(s: string)
    requires 'h' !in s
    ensures !Matches(s, Greeting)
  {
    IncludesMissingChar(s, "hello", 'h');
    IncludesMissingChar(s, "hi", 'h');
    IncludesMissingChar(s, "hey", 'h');
    MatchesGreeting(s);
  }

  lemma SweetPotatoInside(s: string, before: string, after: string)
    requires s == before + "sweet potato" + after
    ensures Matches(s, SweetPotato)
  {
    IncludesInfix(before, "sweet potato", after);
    MatchesSweetPotato(s);
  }

  /** Input lacking the letters l, w, k, c, t, u and f, and the words "hi",
      "hey" and "dish", matches no category. */
  lemma NoTrigger(s: string)
    requires 'l' !in s && 'w' !in s && 'k' !in s && 'c' !in s && 't' !in s && 'u' !in s && 'f' !in s
    requires !Includes(s, "hi") && !Includes(s, "hey") && !Includes(s, "dish")
    ensures Classify(s).None?
  {
    IncludesMissingChar(s, "hello", 'l');
    MatchesGreeting(s);
    IncludesMissingChar(s, "sweet potato", 'w');
    IncludesMissingChar(s, "khoai ng\U{1ECD}t", 'k');
    MatchesSweetPotato(s);
    IncludesMissingChar(s, "recipe", 'c');
    IncludesMissingChar(s, "cook", 'c');
    MatchesRecipes(s);
    IncludesMissingChar(s, "tip", 't');
    IncludesMissingChar(s, "how to", 'w');
    IncludesMissingChar(s, "help", 'l');
    MatchesCooking(s);
    IncludesMissingChar(s, "health", 'l');
    IncludesMissingChar(s, "nutrition", 'u');
    IncludesMissingChar(s, "benefit", 'f');
    MatchesHealth(s);
    ClassifyNoneIff(s);
  }

  lemma NotInWords(a: string, b: string, c: string, t: string)
    requires ' ' !in t && !Includes(a, t) && !Includes(b, t) && !Includes(c, t)
    ensures !Includes(a + [' '] + (b + [' '] + c), t)
  {
    NotAcross(b, c, t);
    NotAcross(a, b + [' '] + c, t);
  }

  lemma NotAcross(a: string, b: string, t: string)
    requires ' ' !in t && !Includes(a, t) && !Includes(b, t)
    ensures !Includes(a + [' '] + b, t)
  {
    NotAcross2(a, ' ', b, t);
  }

  lemma NotAcross2(a: string, c: char, b: string, t: string)
    requires c !in t && !Includes(a, t) && !Includes(b, t)
    ensures !Includes(a + [c] + b, t)
  {
    if Includes(a + [c] + b, t) {
      IncludesAcrossSeparator(a, c, b, t);
    }
  }

  lemma SampleInputs()
    ensures IsBlank("   ") && !IsBlank("hi there") && !IsBlank("cooking tip")
  {
    assert !IsWhitespace("hi there"[0]);
    assert !IsWhitespace("cooking tip"[0]);
  }

  /**
   * Whitespace is not sent; a second message can be sent while the first
   * reply is still due; the first timer to fire clears the typing indicator
   * although the other reply has not arrived.
   */
  method TwoQuickMessages(u: Unicode) returns (logged: nat, typing: bool, due: nat)
    ensures logged == 3 && !typing && due == 1
  {
    SampleInputs();
    var chat := new ChatSession(u);
    chat.SetInput("   ");
    chat.SendMessage();
    assert chat.messages == [];
    chat.SetInput("hi there");
    chat.SendMessage();
    chat.SetInput("cooking tip");
    chat.SendMessage();
    assert chat.isTyping && |chat.pending| == 2;
    chat.DeliverReply(1, 0.5);
    logged, typing, due := |chat.messages|, chat.isTyping, |chat.pending|;
  }
}

# Sweet Potatou: chat assistant, slugs, reading time and typewriter, in Dafny

This project models three parts of the Sweet Potatou cooking site (a Next.js/React
application) and proves properties of them.

- **The chat assistant** (`src/components/ui/Chatbot.tsx`).
  - The canned replies `predefinedResponses` are modelled, along with `getRandomResponse`.
  - `processMessage` is modelled too: it lowercases the input and tests for trigger
    substrings in a fixed order. The order is greeting, then sweet potato, then recipes,
    then cooking tips, then health. When no trigger matches it gives a fixed default reply.
  - The message log of the `Chatbot` component is modelled: sending a message and the
    delayed bot reply.
  - Module `Chatbot` (file `chatbot.dfy`) holds the model. Module `ChatbotScenarios`
    (file `chatbot_scenarios.dfy`) works through concrete inputs.
- **`slugify` and `readingTime`** (`src/lib/utils.ts`), in module `Utils` (file `utils.dfy`).
- **The `Typewriter` component** (`src/components/ui/Typography.tsx`), in module
  `Typography` (file `typography.dfy`).
  - It reveals its text one code unit per timer tick.
  - The cursor shows until the whole text is on screen.

Module `Text` (file `text.dfy`) holds the JavaScript string primitives that these rely on.

- **Whitespace.** The `\s` / `trim` whitespace set is written out exactly.
- **Case mapping and decomposition.** `toLowerCase` and `normalize('NFD')` use the
  Unicode tables. These tables are a parameter `u: Unicode` that maps each code point
  to a string, so `Lower` replaces each code point by its own mapping. The predicate
  `Conforming(u)` constrains only their ASCII behaviour: A–Z lower to a–z, and ASCII
  decomposes to itself.
  - NFD is applied character by character. For `slugify` this is exact, because
    canonical reordering only permutes characters with a nonzero combining class. Every
    such character is dropped later: it lies in U+0300–U+036F, or it is outside
    `[a-z0-9 -]`.
- **String operations.** `includes`, `trim`, `split(/\s+/)` and the global
  `replace(/x+/g, c)` are defined on sequences of characters.
- **`includes`.** It is defined by position (`OccursAt`). `IncludesStep` proves it
  equal to the left-to-right scan.

`Math.random()` is a parameter `r` with `0 <= r < 1`. `getRandomResponse` picks the
index `floor(r * 3)`, which `PickIndex` proves lies in range.

The component's timers are explicit steps:

- `ChatSession.DeliverReply` is the reply timer firing.
- `Typewriter.Tick` is one Typewriter timeout.

Each of these methods states its whole new state in terms of the old one, and keeps its
class's invariant `Valid()`. For `ChatSession` the invariant says four things:

- Every user message is answered once or still due.
- The typing indicator is on only while some reply is due.
- The log holds only non-blank user input and canned replies.
- Every due input is non-blank.

**Several replies can be pending at once.** The send button is disabled only for blank
input (`Chatbot.tsx:362`), and the Enter key calls `handleSendMessage` unconditionally
(`Chatbot.tsx:141-146`). So a second message can be sent while a reply is still due.

- Each timer waits its own random 1–2 s, so `ChatSession` keeps the due inputs in
  `pending`, and `DeliverReply(k, r)` may deliver any of them.
- Every delivery sets `isTyping` to false, even when other replies are still due.
  `TwoQuickMessages` shows this: after two sends and one delivery, one reply is still due
  and the typing indicator is off.
- Nothing in the code limits the pending replies to one.

**"tell me a sweet potato recipe".** This input contains both "sweet potato" and
"recipe". The sweet-potato test (`Chatbot.tsx:59`) comes before the recipe test
(`Chatbot.tsx:63`), so the reply comes from the sweet-potato list.
`ChatbotScenarios.SweetPotatoRecipe` proves this.

## Model

| member | source | states |
|---|---|---|
| Text.AsciiLower | src/components/ui/Chatbot.tsx:53 | lowercasing an ASCII character yields ASCII, never a capital, and changes exactly the capitals |
| Text.LowerIgnoresAsciiCase | src/components/ui/Chatbot.tsx:53 | under conforming tables, two strings that differ only in ASCII letter case lowercase to the same string |
| Text.LowerOfLowerAscii | src/lib/utils.ts:19 | under conforming tables, lowercasing an ASCII string without capitals leaves it unchanged |
| Text.IsWhitespace | src/lib/utils.ts:30 | the `\s` set of `trim` and `split(/\s+/)`, written out code point by code point; the partner lemmas are `Text.TrimEmptyIff` and `Utils.WordCountAllWhitespace` |
| Text.Lower | src/lib/utils.ts:19 | `toLowerCase`, one code point at a time through the tables; its properties are `Text.LowerIgnoresAsciiCase` and `Text.LowerOfLowerAscii` |
| Text.Includes | src/components/ui/Chatbot.tsx:55-73 | `s.includes(t)`: `t` occurs at some position of `s`; `Text.IncludesStep` proves it equal to the left-to-right scan |
| Text.IncludesStep | src/components/ui/Chatbot.tsx:55-73 | `includes` holds exactly when the needle is a prefix or occurs in the tail (the scan and the positional definition agree) |
| Text.IncludesInfix | src/components/ui/Chatbot.tsx:55-73 | a string includes every infix it is built around |
| Text.IncludesMissingChar | src/components/ui/Chatbot.tsx:55-73 | a needle with a character the haystack lacks is not included |
| Text.IncludesAcrossSeparator | src/components/ui/Chatbot.tsx:55-73 | a needle without the separator that occurs in `a + [c] + b` occurs in `a` or in `b` |
| Text.Filter | src/lib/utils.ts:21-22 | `replace(/[...]/g, '')`: every kept character satisfies the class and comes from the input; every input character in the class is kept; an input entirely in the class is unchanged |
| Text.FilterAppend | src/lib/utils.ts:21-22 | filtering a concatenation is the concatenation of the filtered parts, so kept characters stay in input order |
| Text.DropWhile | src/lib/utils.ts:25 | the result is the suffix after the longest prefix in the class, and does not start in the class |
| Text.TrimStart | src/lib/utils.ts:25 | the result is the suffix after a leading whitespace run and does not start with whitespace |
| Text.TrimEnd | src/lib/utils.ts:25 | the result is the prefix before a trailing whitespace run and does not end in whitespace |
| Text.Trim | src/lib/utils.ts:25 | the result of `trim` neither starts nor ends with whitespace |
| Text.TrimInfix | src/lib/utils.ts:25 | `trim` yields the part of the input that starts right after its leading whitespace |
| Text.TrimWithoutWhitespace | src/lib/utils.ts:25 | `trim` leaves unchanged a string with no whitespace |
| Text.TrimEmptyIff | src/components/ui/Chatbot.tsx:113 | `trim` yields the empty string exactly when the input is all whitespace |
| Text.ReplaceRuns | src/lib/utils.ts:23-24 | `replace(/x+/g, c)`: each maximal run of the class becomes one `c`; its properties are `Text.ReplaceRunsChars`, `Text.ReplaceRunsNoAdjacent`, `Text.ReplaceRunsNoOp` and `Text.ReplaceRunsKeepsOthers` |
| Text.ReplaceRunsChars | src/lib/utils.ts:23-24 | after `replace(/x+/g, c)` every character is `c` or an input character outside the class |
| Text.ReplaceRunsNoAdjacent | src/lib/utils.ts:24 | when `c` is in the class, the result never has two class characters in a row |
| Text.ReplaceRunsNoOp | src/lib/utils.ts:23-24 | a string whose class characters are all `c` and isolated is unchanged |
| Text.ReplaceRunsKeepsOthers | src/lib/utils.ts:23-24 | when `c` is in the class, the characters outside the class all survive, in order |
| Text.Split | src/lib/utils.ts:30 | `split(/\s+/)` always yields at least one piece |
| Chatbot.Responses | src/components/ui/Chatbot.tsx:19-45 | every category has exactly three canned replies |
| Chatbot.PickIndex | src/components/ui/Chatbot.tsx:49 | `Math.floor(r * n)` for `0 <= r < 1` is a valid index, the floor of `r * n` |
| Chatbot.GetRandomResponse | src/components/ui/Chatbot.tsx:47-50 | the reply is an element of the category's list, for every draw |
| Chatbot.ProcessMessage | src/components/ui/Chatbot.tsx:52-76 | the if-chain equals the table-driven classifier on the lowercased input; the default reply when nothing matches, otherwise a reply of the matched category |
| Chatbot.Triggers | src/components/ui/Chatbot.tsx:55-73 | every category has at least one trigger substring |
| Chatbot.FirstMatch | src/components/ui/Chatbot.tsx:55-75 | no category is found exactly when none in the order matches; a found one matches and no earlier one does |
| Chatbot.ClassifyUnfolded | src/components/ui/Chatbot.tsx:55-75 | classification is the five tests tried one after another |
| Chatbot.RepliesDistinct | src/components/ui/Chatbot.tsx:19-75 | no two categories share a reply, and the default reply is in no list |
| Chatbot.ReplyCategoryIff | src/components/ui/Chatbot.tsx:52-73 | the reply comes from category `c` exactly when `c` is the category the input is classified under |
| Chatbot.ClassifyNoneIff | src/components/ui/Chatbot.tsx:55-75 | no category is found exactly when no category's triggers occur |
| Chatbot.NoneMeansNoMatch | src/components/ui/Chatbot.tsx:75 | when nothing is found, no category matches |
| Chatbot.DefaultIffNoTrigger | src/components/ui/Chatbot.tsx:75 | the default reply is given exactly when none of the fourteen triggers occurs, whatever the draw |
| Chatbot.EarlierCategoryWins | src/components/ui/Chatbot.tsx:55-73 | if a category matches, the answer comes from it or from a category tried before it |
| Chatbot.ClassifyFirstMatch | src/components/ui/Chatbot.tsx:55-73 | the answer is category `k` exactly when `k` matches and no earlier category does |
| Chatbot.HiMeansGreeting | src/components/ui/Chatbot.tsx:55-57 | any lowercased input containing "hi" gets a greeting, whatever else it contains |
| Chatbot.CookNeverCookingTips | src/components/ui/Chatbot.tsx:63-69 | an input containing "cook" is never answered from the cooking-tips list |
| Chatbot.ProcessMessageIgnoresCase | src/components/ui/Chatbot.tsx:53 | inputs differing only in ASCII letter case get the same reply |
| Chatbot.ProcessMessageIsCanned | src/components/ui/Chatbot.tsx:52-76 | every reply is the default or one of the canned replies |
| Chatbot.LogAppend | src/components/ui/Chatbot.tsx:122-136 | `[...prev, m]` keeps the log well formed and adds one to exactly the matching count |
| Chatbot.NoneBlankAppend | src/components/ui/Chatbot.tsx:113-127 | scheduling a non-blank input keeps every due input non-blank |
| Chatbot.NoneBlankRemove | src/components/ui/Chatbot.tsx:127-138 | delivering one due reply keeps every other due input non-blank |
| Chatbot.IsBlank | src/components/ui/Chatbot.tsx:113 | `!inputValue.trim()`, stated as "all whitespace"; `Text.TrimEmptyIff` proves the two equal |
| Chatbot.ChatSession.constructor | src/components/ui/Chatbot.tsx:80-82 | the log and input start empty, nothing is due, and the typing indicator is off |
| Chatbot.ChatSession.SetInput | src/components/ui/Chatbot.tsx:355 | typing replaces the input and changes nothing else |
| Chatbot.ChatSession.SendMessage | src/components/ui/Chatbot.tsx:112-125 | blank input changes nothing; otherwise one user message with the input is appended, the input is cleared, the typing indicator turns on, and the input is due a reply |
| Chatbot.ChatSession.DeliverReply | src/components/ui/Chatbot.tsx:127-138 | one bot message with `processMessage` of the submitted input is appended, earlier messages kept in order; typing turns off; that input is no longer due |
| ChatbotScenarios.HiThere | src/components/ui/Chatbot.tsx:55-57 | "hi there" gets a greeting |
| ChatbotScenarios.HiInsideWords | src/components/ui/Chatbot.tsx:55-57 | "this dish" and "chips recipe" get a greeting, through the "hi" inside a word |
| ChatbotScenarios.CookingTip | src/components/ui/Chatbot.tsx:63-69 | "cooking tip" is answered from the recipes list |
| ChatbotScenarios.SweetPotatoRecipe | src/components/ui/Chatbot.tsx:59-65 | "tell me a sweet potato recipe" is answered from the sweet-potato list and not from the recipes list |
| ChatbotScenarios.Gibberish | src/components/ui/Chatbot.tsx:75 | "random gibberish xyz" gets exactly the default reply |
| ChatbotScenarios.HelloInAnyCase | src/components/ui/Chatbot.tsx:53-56 | "HELLO", "Hello" and "hello" get the same reply, a greeting |
| ChatbotScenarios.SampleInputs | src/components/ui/Chatbot.tsx:113 | "   " is blank; "hi there" and "cooking tip" are not |
| ChatbotScenarios.TwoQuickMessages | src/components/ui/Chatbot.tsx:112-145 | a blank send is ignored; two sends and one delivery log three messages, leave one reply due, and turn the typing indicator off |
| Utils.Kept | src/lib/utils.ts:19-22 | after lowercasing, decomposing and the two filters only `[a-z0-9 -]` remains |
| Utils.Dashed | src/lib/utils.ts:23-25 | the last three steps of `slugify`; `Utils.SlugAlphabet` proves that on `[a-z0-9 -]` they give `[a-z0-9-]` with no double hyphen and nothing to trim |
| Utils.Slugify | src/lib/utils.ts:17-26 | every character of a slug is in `[a-z0-9-]` and no two hyphens are adjacent |
| Utils.SlugAlphabet | src/lib/utils.ts:23-25 | on `[a-z0-9 -]` input the two run replacements leave only `[a-z0-9-]` with no double hyphen, and `trim` removes nothing |
| Utils.KeptFixes | src/lib/utils.ts:19-22 | the first four steps leave a string over `[a-z0-9 -]` unchanged |
| Utils.SlugifyFixes | src/lib/utils.ts:17-26 | a string over `[a-z0-9-]` without a double hyphen is its own slug |
| Utils.SlugifyIdempotent | src/lib/utils.ts:17-26 | `slugify(slugify(s)) == slugify(s)` |
| Utils.SlugifyKeepsEdgeHyphens | src/lib/utils.ts:23-25 | `" a "` becomes `"-a-"`: edge whitespace turns into hyphens that `trim` keeps |
| Utils.SlugifyDropsAccents | src/lib/utils.ts:19-21 | a character lowercasing to a letter that decomposes into `a-z` plus combining marks becomes that ASCII letter |
| Utils.FilterDropsAll | src/lib/utils.ts:21 | a filter removes a string none of whose characters it keeps |
| Utils.ReadingTime | src/lib/utils.ts:28-33 | at least one minute, and the ceiling of pieces/200: `(m-1)*200 < pieces <= m*200` |
| Utils.ReadingTimeCountsWords | src/lib/utils.ts:30 | the number of pieces of the trimmed split is the word count, or 1 when there are no words |
| Utils.ReadingTimeBounds | src/lib/utils.ts:29-32 | the minutes are the ceiling of words/200, so 1 for 0–200 words |
| Utils.ReadingTimeMonotonic | src/lib/utils.ts:29-32 | more words never mean fewer minutes |
| Utils.WordCountTrim | src/lib/utils.ts:30 | trimming keeps every word |
| Utils.WordCountTrimEnd | src/lib/utils.ts:30 | removing trailing whitespace keeps every word |
| Utils.WordCountDropWhitespace | src/lib/utils.ts:30 | leading whitespace holds no word |
| Utils.WordCountAppendWhitespace | src/lib/utils.ts:30 | appended whitespace holds no word |
| Utils.WordCountAllWhitespace | src/lib/utils.ts:30 | an all-whitespace string has no word |
| Utils.SplitCount | src/lib/utils.ts:30 | on a string not ending in whitespace, `split(/\s+/)` yields one piece per word plus a leading empty piece when it is empty or starts with whitespace |
| Typography.Initial | src/components/ui/Typography.tsx:232-233 | the mounted state shows the empty prefix of any text |
| Typography.Step | src/components/ui/Typography.tsx:236-241 | a tick keeps the prefix invariant; with text left it extends the shown prefix and advances the index by one; once complete it changes nothing |
| Typography.RunShowsPrefix | src/components/ui/Typography.tsx:232-241 | after `n` ticks the first `min(n, length)` code units are shown and the index is that count |
| Typography.RunCompletes | src/components/ui/Typography.tsx:237 | the whole text is shown exactly from the `length`-th tick on, and later ticks change nothing |
| Typography.ShowsCursor | src/components/ui/Typography.tsx:249-251 | under the invariant the cursor is shown exactly while the shown text differs from the text |
| Typography.Wait | src/components/ui/Typography.tsx:241 | the `setTimeout` wait: `delay` at index 0 and `speed` otherwise; `Typography.DelayOnlyFirst` relates it to the run |
| Typography.DelayOnlyFirst | src/components/ui/Typography.tsx:241 | the first wait is `delay`, and every wait after a tick of non-empty text is `speed` |
| Typography.Typewriter.constructor | src/components/ui/Typography.tsx:221-233 | mounting keeps the props and starts with nothing shown at index 0 |
| Typography.Typewriter.WithDefaults | src/components/ui/Typography.tsx:228-233 | without `speed` and `delay` props they are 100 and 0 |
| Typography.Typewriter.Tick | src/components/ui/Typography.tsx:236-241 | the timer callback keeps `displayText == text[..currentIndex]` and moves the state as `Step` does |
| Typography.Typewriter.Cursor | src/components/ui/Typography.tsx:249 | the cursor is rendered exactly while not all of the text is shown |
| Typography.Typewriter.NextWait | src/components/ui/Typography.tsx:241 | the effect waits `delay` at index 0 and `speed` otherwise |
| Typography.TypeHi | src/components/ui/Typography.tsx:228-251 | with the defaults, "Hi" shows "H" and then "Hi" after waits of 0, 100 and 100 ms, and the cursor then goes away |

## Left out

- The auto-open welcome timer (`Chatbot.tsx:86-102`) is left out. It is a one-off
  2-second timer that opens the panel and replaces the whole log with a welcome message.
  - Because it replaces the log rather than appending to it, a reply that arrives
    before it is lost.
  - `ChatSession` starts from the empty log and never takes this step.
- The message `id` and `timestamp` are left out. They come from `Date.now()` and
  `new Date()`, so a `Message` carries only `text` and `isBot`.
- Timer durations are left out, meaning the 1–2 s reply delay and the Typewriter
  timeouts. The order of events is a choice of the caller, and `Wait` only names the
  duration.
- Scrolling, panel open/close, rendering and animation have no behaviour to state, so
  they are left out.
- `Math.random()` is an exact real in `[0, 1)`, and floating-point rounding of
  `Math.random() * 3` is not modelled.
  - `ReadingTime` divides exactly. Content would need more than 2^53 words for float
    division to differ.
- The Unicode case-mapping and decomposition tables are not written out.
  - `Conforming` fixes only their ASCII behaviour.
  - `SlugifyDropsAccents` states the accent rule for any character whose table entries
    have the stated shape.
- Strings in `Text`, `Chatbot` and `Utils` are sequences of Unicode scalar values, not
  UTF-16 code units.
  - For `includes`, `toLowerCase`, the BMP-only class U+0300–U+036F and
    `[^a-z0-9 -]` the two views agree: a filtered astral character loses both its
    surrogates.
  - `Typography` does index code units, because `text[i]` and `text.length` do.
- The Typewriter `text`, `speed` and `delay` props changing after mount are not
  modelled; they are `const` fields.
  - When `text` changes, the component keeps its `displayText` and `currentIndex`, so
    the prefix invariant holds only for a fixed text.
  - Negative or fractional `speed`/`delay` values are not modelled (they are `nat`).
- The concrete input "what's the health benefit of sweet potato" has no scenario lemma.
  `Chatbot.ClassifyFirstMatch` with `k = 1` covers it: it contains "sweet potato" and no
  greeting trigger, so its reply comes from the sweet-potato list.
- `debounce`, `throttle`, `cn`, `formatDate`, `getImagePlaceholder` and
  `isReducedMotion` in `src/lib/utils.ts` are not part of this model. They are timers,
  library calls and browser queries.
- `Text.Lower` leaves out the Final_Sigma rule of `toLowerCase`, the one
  context-sensitive rule of the Unicode case mapping. Under it a capital sigma at the end
  of a word lowers to the final sigma ς, and elsewhere to σ. A per-code-point table cannot
  express this. No proved property depends on it: neither sigma is in any chat trigger,
  and `slugify`'s `[^a-z0-9 -]` filter removes both.

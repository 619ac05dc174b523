# Conversation postprocessor: a verified model

The postprocessor takes a call-centre transcript and writes three records: a
user (name, email, phone number), the user's analytics (country, intent level,
follow-up), and a history entry holding the transcript with normalised speaker
tags. Most of `main.py` is prompt text for a language model, web wiring and
database plumbing. This project models the deterministic logic around those
parts and proves its properties.

The project has eight modules:

- `Text` (`text.dfy`) models the string operations the code relies on, on ASCII:
  - `isdigit`, `isspace`, `lower` and `upper` as character predicates and maps;
  - `strip`, `lstrip` and `rstrip` with a set of characters;
  - `split` and `join` on one separator.
- `JsonValue` (`json.dfy`) models the decoded replies. It gives Python's truthiness, `dict.get`, and what a `for` loop visits in a value.
- `Phone` (`phone.dfy`) models `normalize_phone_number` and the acceptance step of `extract_phone_number`.
- `Tags` (`tags.dfy`) models `normalize_conversation_tags`:
  - The two regular expressions are modelled as matchers, proved equal to a declarative description of what each pattern consumes.
  - The loop over the lines is a method proved against the function that rewrites the whole transcript.
- `Email` (`email.dfy`) models the clean-up and validation steps of `extract_email`.
- `Languages` (`languages.dfy`) models the clean-up step of `detect_languages`, including Python's string order, `sorted` and `set`.
- `Analytics` (`analytics.dfy`) models the coercions of `detect_follow_up` and `generate_analytics`.
- `Store` (`store.dfy`) models the store written by `process_conversation`:
  - `class Database` holds the `users`, `userAnalytics` and `conversationHistory` collections as sequences, plus a counter that hands out fresh ids.
  - The find-or-create, upsert, append and whole-request operations are methods of the class.
  - Pure functions state what each operation computes; lemmas state what the operations preserve.

Every reply of the language model is a parameter:

- A text reply is an `Option<string>`.
- A JSON reply is an `Option<Reply>`, where `Reply` is a decoded object.
- `None` stands for a call or a decoding that raised; the code catches these and falls back to its default.

The current time is a parameter too. Ids come from the counter `nextId`.

## Where the code does less than it announces

The model follows the code in each case.

- **Phone length.** The docstring of `normalize_phone_number` (main.py:63) says the result has ten digits.
  - The code drops just the two leading digits of an overlong number starting with "91".
  - An eleven-digit "91…" number therefore comes out with nine digits, and normalising it again pads it to ten.
  - `NormalizeLengthIsTen` and `NormalizeIdempotentIff` state exactly when ten digits come out and when the function is idempotent; `NormalizeElevenDigits91` gives the example.
  - `extract_phone_number` throws away any result that is not ten digits (main.py:206).
  - A reply with no digit at all that is neither blank nor "NOT_FOUND" is padded to "0000000000" and accepted (`ExtractPhoneWithoutDigits`). Every such caller is then looked up and stored under the same phone number, "910000000000" (main.py:402-403, 661-662).
- **Analytics update.** An existing analytics record is updated with `$set` (main.py:710-712), not replaced. The keys the update writes are overwritten and every other key of the record is kept. `UpsertKeepsExisting` states this.
- **Intent level.** The prompt asks for one of TOFU, MOFU and BOFU (main.py:554). The code upper-cases whatever string comes back, without checking it against the three (main.py:586-587, `IntentLevelAnyString`).
- **Same phone, same user.** A second call with the same phone number returns the same user when that user holds the number (`LookupFindsPhoneHolder`).
  - On the phone path, `create_user_from_conversation` also re-checks by the email the model extracted (main.py:413-425). A known user with a different phone number can be returned this way.
  - The new number is then stored nowhere (`RecheckByEmailOnPhonePath`).

## Model

| member | source | states |
|---|---|---|
| Text.LowerStr | main.py:291 | `str.lower()` keeps the length, leaves no upper-case letter, and maps each character on its own |
| Text.UpperStr | main.py:587 | `str.upper()` keeps the length, leaves no lower-case letter, and maps each character on its own |
| Text.TrimLeft | main.py:291 | `lstrip(chars)` removes a prefix made only of the given characters, and what is left does not start with one |
| Text.TrimRight | main.py:294 | `rstrip(chars)` removes a suffix made only of the given characters, and what is left does not end with one |
| Text.Trim | main.py:291 | `strip(chars)` cuts a prefix and a suffix made only of the given characters and keeps the middle as it is; what is left neither starts nor ends with one of them |
| Text.Strip | main.py:197 | `strip()` cuts only whitespace, from both ends, keeps the middle as it is, and leaves no whitespace at either end |
| Text.StripUnique | main.py:197 | any cut of whitespace from both ends that leaves no whitespace at either end is the result of `strip()` |
| Text.CutsCompose | main.py:291 | two end-cuts in a row are one end-cut, removing at each end the characters either of them removes |
| Text.LowerStripCommute | main.py:392 | lower-casing and stripping may be done in either order |
| Text.Split | main.py:88 | `split(sep)` gives at least one piece, no piece holds the separator, and joining the pieces gives the input back |
| Text.Join | main.py:113 | when no piece holds the separator, the separator occurs in the joined string exactly when there are at least two pieces |
| Text.SplitJoin | main.py:88-113 | splitting a join of separator-free pieces gives those pieces |
| Text.SplitOnce | main.py:302 | a string with one separator splits into the two sides of it |
| Text.SplitHasTwo | main.py:297 | a string holding the separator splits into at least two pieces, so `split("@")[1]` exists |
| Text.SplitTwo | main.py:302-303 | two pieces mean exactly one separator, between the pieces |
| JsonValue.Iterate | main.py:156 | iterating a list visits its items; a string visits its one-character strings in order; an object visits its keys in order; null, booleans and numbers cannot be iterated |
| JsonValue.TruthyIsNonEmpty | main.py:156 | a string, list or object is truthy exactly when iterating it visits something; of the other values only `true` and non-zero numbers are truthy |
| JsonValue.Get | main.py:153 | `d.get(key, default)` gives the value of a present key and the default for a missing one |
| Phone.DigitsOnly | main.py:65 | the result holds only digits, is no longer than the input, is the input itself when that is all digits, and is empty when the input has no digit |
| Phone.DigitsOnlyAppend | main.py:65 | filtering the digits of a concatenation concatenates the filtered parts |
| Phone.NormalizePhoneNumber | main.py:62-80 | digits only; ten digits unchanged; fewer are left-padded with '0' to ten with the digits as suffix; more than ten without a leading "91" keep the last ten; more than ten with "91" lose exactly the leading "91" |
| Phone.NormalizeLengthIsTen | main.py:67-78 | the result has ten digits exactly when the digit string has at most ten digits, does not start with "91", or has twelve |
| Phone.NormalizeWithoutDigits | main.py:64-75 | text without a digit normalises to ten zeros |
| Phone.NormalizeTenDigits | main.py:76-78 | a ten-digit string is returned unchanged |
| Phone.NormalizeIdempotentIff | main.py:62-80 | normalising twice equals normalising once exactly when the first result has ten digits |
| Phone.NormalizeDropsCountryCode | main.py:68-69 | "91" followed by ten digits, with any separators, gives those ten digits |
| Phone.NormalizeExampleShort | main.py:73-75 | "12345" gives "0000012345" |
| Phone.NormalizeExampleLong | main.py:70-72 | "123456789012" gives "3456789012" |
| Phone.NormalizeExampleTen91 | main.py:76-78 | a ten-digit number starting with "91" is kept whole |
| Phone.NormalizeElevenDigits91 | main.py:68-69 | "91123456789" gives nine digits, which a second pass pads to "0123456789" |
| Phone.ExtractPhoneNumber | main.py:197-210 | the result is None or exactly ten digits; it is present exactly when a reply came, its stripped form is neither "NOT_FOUND" nor empty, and normalising gives ten digits; when present it is that normalised number |
| Phone.ExtractPhoneWithoutDigits | main.py:197-210 | a reply that is neither blank nor "NOT_FOUND" but holds no digit is padded to ten zeros and accepted |
| Phone.ExtractPhoneRefuses91 | main.py:204-208 | overlong "91" numbers other than twelve-digit ones are refused |
| Tags.SkipSpaces | main.py:94 | the greedy `\s*` stops at the first non-space, having consumed only whitespace |
| Tags.SkipSpacesStops | main.py:94 | whitespace up to a non-space is exactly what `\s*` consumes |
| Tags.IndexFrom | main.py:94 | `[^)]*\)` finds the first ')' at or after a position, with no ')' before it |
| Tags.IndexFromFinds | main.py:94 | the first ')' after a position is what the search returns |
| Tags.ColonFrom | main.py:94 | after `\s*:\s*`, group 1 starts later and not with whitespace |
| Tags.NatalieAgentMatch | main.py:94 | the `Natalie\s*\(Agent\)` alternative, if it matches, starts group 1 at a non-space |
| Tags.AgentNameMatch | main.py:94 | the `Agent\s*\([^)]*\)` alternative, likewise |
| Tags.WordMatch | main.py:94-96 | a bare-word alternative followed by the colon, likewise |
| Tags.AgentMatch | main.py:94-99 | the agent pattern with its alternatives in order, likewise |
| Tags.UserMatch | main.py:96-105 | the user pattern, likewise |
| Tags.NormalizeLine | main.py:99-111 | a line without '\n' is rewritten into one without '\n' |
| Tags.ColonFromSound | main.py:94 | what the colon matcher consumes is whitespace, one ':' and whitespace |
| Tags.ColonFromComplete | main.py:94 | any such separator followed by a non-space is found, and it ends there |
| Tags.AgentMatchSound | main.py:94-99 | whatever the agent matcher returns, the line up to it is an agent tag followed by `\s*:\s*` |
| Tags.UserMatchSound | main.py:96-105 | whatever the user matcher returns, the line up to it is "user" in any case followed by `\s*:\s*` |
| Tags.NatalieAgentComplete | main.py:94 | a line starting with `Natalie\s*\(Agent\)` and a colon matches the first alternative at that position |
| Tags.AgentNameComplete | main.py:94 | a line starting with `Agent\s*\(…\)` and a colon fails the first alternative and matches the second |
| Tags.NatalieWordComplete | main.py:94 | a line starting with "Natalie" and a colon fails the first two alternatives and matches the third |
| Tags.AgentWordComplete | main.py:94 | a line starting with "Agent" and a colon fails the first three alternatives and matches the fourth |
| Tags.AgentMatchComplete | main.py:94-99 | any agent head followed by a non-space is found by the agent matcher at that position |
| Tags.AgentMatchNeedsInitial | main.py:94 | a line whose first letter is neither 'n' nor 'a' in any case matches no agent alternative |
| Tags.UserMatchComplete | main.py:96-108 | any user head followed by a non-space is found by the user matcher, and such a line never matches the agent pattern |
| Tags.NormalizeAgentLine | main.py:99-102 | a line with an agent head becomes "Agent: " followed by the rest |
| Tags.NormalizeUserLine | main.py:104-108 | a line with a user head becomes "User: " followed by the rest |
| Tags.NormalizeOtherLine | main.py:109-111 | a line with neither head is kept unchanged |
| Tags.AgentPrefixIsHead | main.py:102 | "Agent: " followed by text not starting with whitespace is an agent head of length 7 |
| Tags.UserPrefixIsHead | main.py:108 | "User: " followed by text not starting with whitespace is a user head of length 6 |
| Tags.NormalizeLineIdempotent | main.py:94-111 | rewriting a line twice is rewriting it once |
| Tags.NormalizeLines | main.py:91-111 | one line out per line in, each the rewrite of the line at the same place; lines without '\n' stay without |
| Tags.NormalizedConversation | main.py:88-113 | splitting the rewritten transcript on '\n' gives exactly the input's lines, each rewritten, so the number of lines is kept |
| Tags.NormalizedConversationIdempotent | main.py:83-113 | normalising a transcript twice is normalising it once |
| Tags.NormalizeConversationTags | main.py:83-113 | the loop produces the transcript rewritten line by line; its i-th line is the rewrite of the i-th input line |
| Email.EmailChecksIff | main.py:296-311 | the three validations accept exactly the strings with one '@', a non-empty local part, and a '.' in the domain |
| Email.Unquote | main.py:291 | `.strip('"').strip("'")` cuts only quotes, from either end, keeps the middle, and leaves no single quote in front |
| Email.CleanEmail | main.py:291-294 | the cleaned string is the lower-cased input with only whitespace and quotes cut from its front and only whitespace, quotes and `.,;:!?` cut from its back; it has no upper-case letter, does not end in any of `.,;:!?`, and does not start with a single quote |
| Email.ExtractEmail | main.py:286-314 | an accepted address is lower case and well formed; it is present exactly when a reply came, its stripped form is neither "NOT_FOUND" nor empty, and its cleaned form is well formed; it is then that cleaned form |
| Email.CleanEmailOfClean | main.py:291-294 | cleaning changes nothing on an address with nothing to remove |
| Email.ExtractEmailKeepsClean | main.py:286-314 | a clean, well-formed address comes back unchanged |
| Email.NotFoundIsNoAddress | main.py:286-288 | the reply "NOT_FOUND" is not a well-formed address |
| Email.CleanEmailUnquotes | main.py:291 | double quotes around an address are removed |
| Email.ExtractEmailUnquotes | main.py:286-314 | a quoted, otherwise clean address is accepted without its quotes |
| Email.ExtractEmailNotFound | main.py:286-288 | the reply "NOT_FOUND" gives no address |
| Email.TwoAtsInvalid | main.py:302-305 | a string with two '@' is not accepted |
| Languages.LessPrefix | main.py:163 | in Python's string order a proper prefix comes first |
| Languages.LessFirstDifference | main.py:163 | otherwise the first character at which two strings differ decides their order |
| Languages.LessIrreflexive | main.py:163 | Python's string order is irreflexive |
| Languages.LessTransitive | main.py:163 | and transitive |
| Languages.LessTotal | main.py:163 | and total on distinct strings |
| Languages.Insert | main.py:163 | inserting into a strictly sorted list keeps it strictly sorted, with the element added once |
| Languages.SortedSet | main.py:163 | `sorted(set(xs))` is strictly sorted and has exactly the elements of xs |
| Languages.StrictlySortedUnique | main.py:163 | two strictly sorted lists with the same elements are equal, so there is only one valid answer |
| Languages.CleanName | main.py:156 | `lang.lower().strip()` of a non-blank item is the lower-cased item with only surrounding whitespace cut, and equals the stripped item lower-cased; it is non-empty, stripped and lower case |
| Languages.LanguageItems | main.py:153 | a reply without a "languages" entry gives the empty list; otherwise the items are what iterating the entry visits |
| Languages.CleanLanguages | main.py:156 | the comprehension raises exactly when some item is truthy but not a string; every name it keeps is non-empty, stripped and lower case |
| Languages.CleanLanguagesContents | main.py:156 | a name is kept exactly when some non-blank string item cleans to it |
| Languages.DetectLanguages | main.py:153-171 | the list is never empty, strictly sorted, and all its names are non-empty, stripped and lower case; a failed call gives ["english"] |
| Languages.DetectLanguagesCharacterised | main.py:153-163 | when nothing raises and something survives, the result is the one strictly sorted list of exactly the surviving names |
| Languages.DetectLanguagesNothingKept | main.py:159-160 | nothing usable gives ["english"] |
| Languages.DetectLanguagesOnError | main.py:153-171 | an entry that cannot be iterated, or a truthy non-string item, gives ["english"] |
| Analytics.FollowUp | main.py:533-545 | a failed call or a missing key gives false; a boolean is taken as it is |
| Analytics.FollowUpIgnoresCase | main.py:537-538 | a string answer is read without regard to case |
| Analytics.FollowUpAffirmative | main.py:537-538 | "true", "yes" and "1", in any case, give true |
| Analytics.FollowUpOtherString | main.py:537-541 | any other string, "false" included, gives false |
| Analytics.FollowUpNonString | main.py:541 | a value that is not a string is converted by its truthiness |
| Analytics.Country | main.py:584 | a truthy country is kept, and anything else becomes "" |
| Analytics.IntentLevel | main.py:586-587 | a non-empty string is upper-cased; a missing, falsy or non-string value gives "TOFU"; the result is never empty and has no lower-case letter |
| Analytics.IntentLevelIdempotent | main.py:586-587 | a stored level read back comes out unchanged |
| Analytics.IntentLevelAnyString | main.py:586-587 | any string is accepted: "warm" gives "WARM" |
| Analytics.GenerateAnalytics | main.py:577-600 | a document exists exactly when the analytics reply came; its country is the reply's truthy country or "", its level is the reply's level upper-cased or "TOFU", and its follow-up is the detected one |
| Store.FindFirst | main.py:413 | `find_one` returns the first matching record, or nothing if none matches |
| Store.FindByPhone | main.py:659-662 | the first user with that stored phone number, or none exists |
| Store.FindByEmail | main.py:664-667 | the first user with that email, or none exists |
| Store.FindAnalytics | main.py:695 | the first analytics record of the user, or none exists |
| Store.UserDoc | main.py:390-403 | the email used is the one given when non-empty, else the reply's; no document exactly when that email is truthy but not a string; the document carries "91"+phone when a phone is given and the reply's name; a falsy email is stored as it is, a truthy one is the lower-cased email with only surrounding whitespace cut |
| Store.Recheck | main.py:410-425 | the first user holding the document's phone number when there is one, else the first user holding its non-empty email; a user found is in the store and shares the phone number or the email; if none is found, no user has either |
| Store.Lookup | main.py:659-667 | the first user holding "91"+phone when there is one, else the first user holding the lower-cased, stripped email; if none is found, no user holds the phone number or that email |
| Store.Upsert | main.py:694-720 | the first record of the user is updated in place, or one record is appended when there is none; afterwards the user has a record, and records of other users are untouched |
| Store.SetFields | main.py:710-714 | `$set` keeps the id and user, writes country, intent level and follow-up, and keeps every other key |
| Store.InsertKeepsUnique | main.py:410-429 | inserting a document the re-check did not find keeps phones and non-empty emails unique |
| Store.InsertedFoundByPhone | main.py:411-429 | the inserted user is what the next lookup by its phone number finds |
| Store.InsertedFoundByEmail | main.py:419-429 | the inserted user is what the next lookup by its email finds |
| Store.LookupFindsPhoneHolder | main.py:659-662 | with unique phones, the holder of a number is what the lookup by it returns |
| Store.RecheckByEmailOnPhonePath | main.py:410-425 | a new phone number whose reply email belongs to a known user returns that user, who does not hold the new number |
| Store.UpsertOnePerUser | main.py:694-721 | the upsert keeps at most one analytics record per user and leaves one for this user |
| Store.UpsertKeepsExisting | main.py:697-714 | an existing record keeps its id and unrelated keys, gets the new country and level, and the other records are untouched |
| Store.UpsertFollowUp | main.py:702-706 | a record with `follow_up` gets the new value; a legacy record gets the value of the second detection |
| Store.UpsertInserts | main.py:716-720 | a user without a record gets exactly one new record with the fresh id |
| Store.UpsertIdempotent | main.py:694-721 | upserting the same document twice is upserting it once, when a legacy fill-in agrees with the document |
| Store.Contact | main.py:624-640 | a blank conversation is rejected first; otherwise the phone number is used when one is found, else the email; neither is an error |
| Store.Caller | main.py:659-676 | nobody exactly when creation fails; the user the lookup finds when there is one; a created user carries the next id; any other user returned is already stored |
| Store.CallerAmongUsers | main.py:659-676 | settling the caller keeps every user, adds at most one, and the settled caller is among the users afterwards |
| Store.CallerUsers | main.py:659-676 | the users once the caller is settled: the created caller is appended exactly when the lookup and the re-check both find nobody and the reply gives a document; otherwise the users are unchanged |
| Store.Database.constructor | main.py:654-655 | an empty, valid store |
| Store.Database.CreateUser | main.py:387-439 | returns the user found by the re-check with the store unchanged, or inserts the document with a fresh id; a failed reply or a truthy email that is not a string creates nothing (a falsy one such as null is stored as it is); uniqueness is preserved |
| Store.Database.FindOrCreateUser | main.py:659-676 | a user found by the lookup is returned with the store unchanged; otherwise the re-checked user is returned unchanged, or the new document is appended with a fresh id; nothing is returned exactly when the lookup finds nobody and the reply is missing or its email is truthy but not a string; the user returned is `Caller` of the old store and the users become `CallerUsers` |
| Store.Database.UpsertAnalytics | main.py:694-721 | the analytics become the upsert of the old ones, the returned record is the user's, and nothing else changes |
| Store.Database.AppendHistory | main.py:728-742 | exactly one entry is appended, holding the normalised conversation, the time and the languages |
| Store.Database.Process | main.py:622-742 | a contact failure changes nothing; "Failed to create user" exactly when the lookup finds nobody and the reply is missing or unusable, "Failed to generate analytics" exactly when creation succeeds and the analytics reply is missing; a failure writes no analytics or history; on success the analytics are the upsert with the id the counter has after the user step, the counter advances by the users, analytics and history added, at most the reported user is added, one history entry with the normalised conversation, the languages and the time is appended; the user reported is `Caller` of the contact (the one the lookup finds, else the one the re-check finds, else the new document with the next id) and the users become `CallerUsers` of the contact, on the failure paths after the contact step too; the history entry reported carries the last id the counter handed out |
| Store.Database.ProcessCaller | main.py:648-742 | the pipeline after the contact step, with the same guarantees: the user reported is `Caller` of the caller's phone and email, and the users become `CallerUsers`; the history entry reported carries the last id the counter handed out |
| Store.Database.RecordConversation | main.py:686-742 | failure exactly when the analytics reply is missing, with nothing changed; otherwise the analytics become the upsert for the given user, the counter advances by the records added, and one history entry is appended and reported, carrying the last id the counter handed out |

## Left out

- Calls to the language model: the calls, their prompts and the JSON decoding.
  - They are foreign calls. Their results are parameters.
  - A reply that failed or did not decode to an object is `None`.
- JSON numbers are integers only. Floating-point values are not modelled.
  - An object nested in a reply is its list of entries; duplicate keys, which `json.loads` collapses, are not modelled.
- `format_budget_indian_style`: its whole conversion is done by the model, and nothing in the pipeline calls it.
- The web framework, request parsing, configuration, CORS, logging and the health route are left out.
- The response's conversion of ids to strings is not modelled; the response carries the documents themselves.
- The database connection, its ping and `client.close()` are not modelled.
- An exception raised by the store itself, and its mapping to an internal-server-error response (main.py:775-777), is not modelled.
- Concurrency: the race between the lookup and the insert across parallel requests is not modelled. The model is sequential.
- `datetime.now()` is the parameter `now`, and an `ObjectId` is a number taken from one counter.
- The "User ID not found" check (main.py:680-684) cannot fail in the model. Every stored user has an id, and an `ObjectId` is always truthy.
- Unicode is not modelled:
  - `str.isdigit`, `str.isspace`, `lower` and `upper` are modelled on ASCII.
  - `\s` and the case folding of `re.IGNORECASE` are modelled on ASCII. A non-ASCII character matches no letter of a tag.
  - Python's string order is by code point, as modelled.

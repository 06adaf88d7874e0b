# BrainBuddy core, modelled in Dafny

BrainBuddy is a study planner. A FastAPI backend stores subjects, topics,
study sessions, users, AI requests and YouTube suggestions in Firestore and
asks the Gemini API for explanations. A Next.js frontend lists the user's
history in a sidebar. This project models the three parts of it that carry
behaviour of their own, and proves what they promise.

- **Record tables** (`collection.dfy`, `study_session_service.dfy`,
  `user_service.dfy`, `ai_request_service.dfy`,
  `youtube_suggestion_service.dfy`). Each service class owns one Firestore
  collection, modelled as a `map` from document id to document data held in a
  field of a Dafny class. Create, update and delete are methods that change
  that field. Get, list and count are methods that only read it. The services
  add their own rules:
  - a new study session is SCHEDULED, with numberSessions defaulting to 1;
  - a new AI request is PENDING and stamped with the clock;
  - a user is not created twice for one email;
  - at most five YouTube suggestions are listed per topic, while the count has
    no cap.

  A query (`where(field == value).stream()`) is modelled once, in
  `Collection.Where`. It returns each matching document exactly once, in an
  unspecified order.
- **Gemini generation with model fallback** (`gemini.dfy`). Each HTTP exchange
  is a given outcome: the model listing is one value, and the generation call
  is a function from (model, prompt) to an outcome. What remains is
  deterministic:
  - building the prompt;
  - extracting names from the model listing;
  - filtering the models to try by substring against the listing;
  - skipping empty names;
  - joining and stripping the reply text;
  - returning the first model that yields text, or failing with the last error.

  The endpoint method is proved equal to a recursive specification. The
  fallback properties are lemmas about that specification.
- **History sidebar** (`sidebar.dfy`). This covers:
  - grouping history items by subject in order of first appearance (a `Map`
    filled in a loop);
  - each group's display name;
  - the initial set of expanded subjects, and toggling a subject in it;
  - the path a topic click navigates to.

  The sidebar's state is a class whose `expandedSubjects` field is
  reassigned on each toggle.

`common.dfy` holds `Option`, `Result` and `Field`. `Field` is a field of a
partial update that is either unset or set, as pydantic's
`model_dump(exclude_unset=True)` sees it.

Environment inputs are parameters:
- `freshId` is the id Firestore generates on `add`; it is required to be
  unused.
- `now` is the value of `datetime.utcnow()`.
- `Settings` holds the `GEMINI_API_KEY` and `GEMINI_MODEL` variables.

In the sidebar, a `subjectId` or `id` of `""` stands for a missing or falsy
value.

## Model

| member | source | states |
|---|---|---|
| Collection.Where | backend/app/services/study_session_service.py:117-120 | a `where(field == value).stream()` answer holds every matching stored document exactly once, each with its stored data, and nothing else |
| Collection.LimitedAnswer | backend/app/services/youtube_suggestion_service.py:104-107 | `.limit(n)` of a query answer has min(n, number of matches) documents, all distinct, stored and matching |
| Collection.CountDocs | backend/app/services/youtube_suggestion_service.py:126 | counting a stream one by one gives its length |
| StudySessions.ApplyUpdate | backend/app/services/study_session_service.py:80-85 | a partial update writes exactly the fields that were set; unset fields, topicId, userId and requestId keep their values |
| StudySessions.EmptyUpdateKeepsSession | backend/app/services/study_session_service.py:80-82 | an update with no field set leaves the session as it is |
| StudySessions.UpdateIdempotent | backend/app/services/study_session_service.py:84-86 | writing the same partial update twice gives the same document as writing it once |
| StudySessions.StudySessionService.CreateStudySession | backend/app/services/study_session_service.py:39-46 | the new session has state SCHEDULED whatever the input; numberSessions is 1 when absent and the given value otherwise; the other fields come from the input; exactly one record is added under the fresh id and the others are unchanged |
| StudySessions.StudySessionService.GetStudySession | backend/app/services/study_session_service.py:59-63 | None exactly when the id is not stored, otherwise the stored session under that id |
| StudySessions.StudySessionService.UpdateStudySession | backend/app/services/study_session_service.py:80-86 | no field set: nothing is written and the current record (or None) is returned; fields set on a missing id: NotFound and nothing changes; otherwise only that record changes, by ApplyUpdate, and it is returned |
| StudySessions.StudySessionService.DeleteStudySession | backend/app/services/study_session_service.py:103-104 | the id is removed (a no-op when absent) and the answer is always true |
| StudySessions.StudySessionService.ListStudySessionsByUser | backend/app/services/study_session_service.py:117-120 | exactly the stored sessions of the user, once each, with their stored data |
| StudySessions.StudySessionService.ListStudySessionsByTopic | backend/app/services/study_session_service.py:133-136 | exactly the stored sessions of the topic, once each, with their stored data |
| Users.ApplyUpdate | backend/app/services/user_service.py:114-119 | a partial update writes exactly the fields that were set; createdAt and the unset fields keep their values |
| Users.CreateKeepsEmailsUnique | backend/app/services/user_service.py:44-56 | create_user never stores a second user with an email already present: unique emails stay unique, the email is present afterwards, and the table grows by one exactly when the email was new |
| Users.UpdateCanDuplicateEmail | backend/app/services/user_service.py:114-120 | update_user does not check emails: on any table, setting one user's email to another user's email leaves two users with one email |
| Users.UserService.CreateUser | backend/app/services/user_service.py:40-56 | when a stored user has the email, that user is returned and the table is unchanged; otherwise the input stamped with `now` is stored under the fresh id and returned; unique emails are preserved |
| Users.UserService.GetUser | backend/app/services/user_service.py:69-73 | None exactly when the id is not stored, otherwise the stored user |
| Users.UserService.GetUserByEmail | backend/app/services/user_service.py:89-97 | None exactly when no stored user has the email; otherwise a stored user with that email |
| Users.UserService.UpdateUser | backend/app/services/user_service.py:114-120 | no field set: nothing is written and the current user (or None) is returned; missing id: NotFound and nothing changes; otherwise only that user changes, by ApplyUpdate |
| Users.UserService.DeleteUser | backend/app/services/user_service.py:137-138 | the id is removed and the answer is always true |
| Users.UserService.ListUsers | backend/app/services/user_service.py:152-153 | every stored user exactly once: the ids listed are the table's keys |
| AIRequests.ApplyUpdate | backend/app/services/ai_request_service.py:79-84 | only the response and the status can change, each only when set; prompt, topicId, slideId, userId and createdAt keep their values |
| AIRequests.AIRequestService.CreateAIRequest | backend/app/services/ai_request_service.py:39-45 | the new request is PENDING with no response, stamped with `now`, carries the input fields, and is the one record added under the fresh id |
| AIRequests.AIRequestService.GetAIRequest | backend/app/services/ai_request_service.py:58-62 | None exactly when the id is not stored, otherwise the stored request |
| AIRequests.AIRequestService.UpdateAIRequest | backend/app/services/ai_request_service.py:79-85 | no field set: a no-op that returns the current request (or None); missing id: NotFound and nothing changes; otherwise only that request changes, by ApplyUpdate |
| AIRequests.AIRequestService.DeleteAIRequest | backend/app/services/ai_request_service.py:98-99 | the id is removed and the answer is always true |
| AIRequests.AIRequestService.ListAIRequestsByUser | backend/app/services/ai_request_service.py:112-115 | exactly the stored requests of the user, once each |
| AIRequests.AIRequestService.ListAIRequestsByTopic | backend/app/services/ai_request_service.py:128-131 | exactly the stored requests of the topic, once each |
| YouTubeSuggestions.ApplyUpdate | backend/app/services/youtube_suggestion_service.py:68-73 | title and url change only when set; topicId keeps its value |
| YouTubeSuggestions.YouTubeSuggestionService.CreateYouTubeSuggestion | backend/app/services/youtube_suggestion_service.py:33-37 | one record with the given title, url and topicId is added under the fresh id; nothing else changes |
| YouTubeSuggestions.YouTubeSuggestionService.GetYouTubeSuggestion | backend/app/services/youtube_suggestion_service.py:50-54 | None exactly when the id is not stored, otherwise the stored suggestion |
| YouTubeSuggestions.YouTubeSuggestionService.UpdateYouTubeSuggestion | backend/app/services/youtube_suggestion_service.py:68-74 | no field set: the current suggestion (or None) unchanged; missing id: NotFound; otherwise only that suggestion changes, by ApplyUpdate |
| YouTubeSuggestions.YouTubeSuggestionService.DeleteYouTubeSuggestion | backend/app/services/youtube_suggestion_service.py:87-88 | the id is removed and the answer is always true |
| YouTubeSuggestions.YouTubeSuggestionService.ListYouTubeSuggestionsByTopic | backend/app/services/youtube_suggestion_service.py:104-107 | min(5, number of suggestions of the topic) stored suggestions, distinct, all of that topic |
| YouTubeSuggestions.YouTubeSuggestionService.CountSuggestionsByTopic | backend/app/services/youtube_suggestion_service.py:123-126 | the number of stored suggestions of the topic, with no cap |
| Gemini.BuildPrompt | backend/app/api/gemini.py:56-58 | with a non-empty context the prompt is "Contexto: " + context + "\n\nExplique: " + prompt, otherwise the prompt unchanged; the request's prompt always ends it |
| Gemini.NamesOf | backend/app/api/gemini.py:36-40 | the listed names are non-empty and no more than the entries |
| Gemini.NamesOfAppend | backend/app/api/gemini.py:36-40 | names are collected entry by entry, in entry order: the names of a + b are those of a followed by those of b |
| Gemini.ListedNameFromEntry | backend/app/api/gemini.py:36-40 | every listed name is the first non-empty name, id or model of some entry; no name is made up |
| Gemini.NamedEntryListed | backend/app/api/gemini.py:36-40 | every entry with a name, id or model contributes the first non-empty of them |
| Gemini.ListAvailableModels | backend/app/api/gemini.py:25-44 | the append loop yields the names of the entries of a 200 listing, and nothing when the listing raised or answered another status |
| Gemini.KeepOffered | backend/app/api/gemini.py:83 | a model is kept exactly when it is a substring of some available id |
| Gemini.KeepOfferedAppend | backend/app/api/gemini.py:83 | the comprehension keeps order and multiplicity: filtering a + b is filtering a, then filtering b |
| Gemini.KeepOfferedSingle | backend/app/api/gemini.py:83 | one model is kept exactly when it is a substring of some available id |
| Gemini.CandidateModels | backend/app/api/gemini.py:80-85 | with a non-empty listing and some match, exactly the matching models; with an empty listing, or a non-empty one where nothing matches, the models unchanged; never empty when the models are not |
| Gemini.TrimStart | backend/app/api/gemini.py:120 | drops exactly the leading whitespace (Python's `isspace` set) |
| Gemini.TrimEnd | backend/app/api/gemini.py:120 | drops exactly the trailing whitespace |
| Gemini.StripEmptyIffAllSpace | backend/app/api/gemini.py:120-121 | `strip()` gives "" exactly when the string is all whitespace, and otherwise a string with no whitespace at either end |
| Gemini.JoinLines | backend/app/api/gemini.py:120 | joining no pieces gives "", and one piece gives that piece |
| Gemini.JoinAllSpace | backend/app/api/gemini.py:120 | the "\n"-joined text is all whitespace exactly when every piece is |
| Gemini.Texts | backend/app/api/gemini.py:114-119 | every collected piece is non-empty; which pieces, and in what order, is stated by TextsAppend and TextsSingle |
| Gemini.TextsAppend | backend/app/api/gemini.py:115-119 | texts are collected part by part, in part order: the texts of a + b are those of a followed by those of b |
| Gemini.TextsSingle | backend/app/api/gemini.py:116-119 | one part contributes its text exactly when it is a "text" part with non-empty text |
| Gemini.TextsAllSpace | backend/app/api/gemini.py:116-119 | the collected pieces are all whitespace exactly when every text part is |
| Gemini.ReplyTextEmptyIff | backend/app/api/gemini.py:111-121 | a candidate yields no text exactly when every one of its text parts is whitespace |
| Gemini.CollectTexts | backend/app/api/gemini.py:115-119 | the append loop collects exactly the non-empty text parts, in order |
| Gemini.Attempt | backend/app/api/gemini.py:108-139 | a 200 reply whose first candidate has non-empty text yields that text; any other 200 reply records that no candidate answered, with the body; an exception records its message; a non-200 reply records the model, status and body |
| Gemini.FallbackPicksFirstWorking | backend/app/api/gemini.py:90-128 | when some model yields text, the answer is the first model in try order that does, with its text |
| Gemini.FallbackFailsWithLastError | backend/app/api/gemini.py:131-146 | when no model yields text, the failure carries the error of the last non-empty model tried, or none if no model was tried |
| Gemini.FallbackAnswerTried | backend/app/api/gemini.py:90-128 | a successful answer names a non-empty model of the list that yields text, and a non-empty text |
| Gemini.GenerateWithGemini | backend/app/api/gemini.py:46-146 | the loop with early return equals the fallback specification over the filtered models; a missing key fails before any model is tried; a success echoes the original prompt, topic_id and slide_id and names a non-empty model and text |
| Gemini.SummarizeWithGemini | backend/app/api/gemini.py:148-156 | generation for the summary prompt with the topic id, no slide and no context |
| Sidebar.FindFirst | frontend/app/components/SideBar.tsx:44 | `history.find` yields nothing exactly when no item has the subject, and otherwise the first item that has it |
| Sidebar.NameOf | frontend/app/components/SideBar.tsx:45 | the display name is the non-empty subjectName, else the non-empty subjectAbbr, else "Subject"; never empty |
| Sidebar.SubjectOrder | frontend/app/components/SideBar.tsx:39-52 | no group is keyed by an empty subjectId |
| Sidebar.SubjectOrderMembers | frontend/app/components/SideBar.tsx:39-52 | a subject has a group exactly when it is non-empty and some item has it |
| Sidebar.SubjectOrderDistinct | frontend/app/components/SideBar.tsx:42-52 | no subject has two groups |
| Sidebar.SubjectOrderFirstAppearance | frontend/app/components/SideBar.tsx:38-57 | groups come in order of first appearance: an item of an earlier group precedes every item of a later one |
| Sidebar.TopicsOf | frontend/app/components/SideBar.tsx:54 | every topic of a group has that group's subjectId |
| Sidebar.ItemInItsGroup | frontend/app/components/SideBar.tsx:54 | each item is among the topics of its own subject |
| Sidebar.TopicsKeepOrder | frontend/app/components/SideBar.tsx:54 | topics keep their history order: the topics from an earlier part of the history come first |
| Sidebar.GroupsPartitionHistory | frontend/app/components/SideBar.tsx:38-55 | all the groups' topics together are, as a multiset, exactly the items with a non-empty subjectId: each once, and no item without a subject |
| Sidebar.TopicCountMatchesHistory | frontend/app/components/SideBar.tsx:38-55 | the groups' topic counts add up to the number of items with a non-empty subjectId |
| Sidebar.ExpandedAreGroupedSubjects | frontend/app/components/SideBar.tsx:24-57 | the subjects that start expanded are exactly those that have a group |
| Sidebar.InitialExpanded | frontend/app/components/SideBar.tsx:24-32 | the initializer's loop yields the set of non-empty subjectIds of the history |
| Sidebar.GroupBySubject | frontend/app/components/SideBar.tsx:35-55 | the Map loop inserts keys in first-appearance order, and each entry holds its subject's name and topics |
| Sidebar.GroupHistory | frontend/app/components/SideBar.tsx:35-58 | the memo's groups are one group per subject in first-appearance order, each with its display name and topics |
| Sidebar.Toggle | frontend/app/components/SideBar.tsx:60-68 | toggling flips membership of the subject and leaves every other id as it was |
| Sidebar.ToggleTwice | frontend/app/components/SideBar.tsx:60-68 | toggling a subject twice restores the set |
| Sidebar.TopicPath | frontend/app/components/SideBar.tsx:70-76 | no navigation when the topic id is empty; otherwise "/topic/" + id, followed by "?subjectId=" + subjectId exactly when the subjectId is non-empty |
| Sidebar.TopicPathRoundTrip | frontend/app/components/SideBar.tsx:70-76 | for a topic id without '?', the path reads back as the topic id and the subject id |
| Sidebar.SidebarState.constructor | frontend/app/components/SideBar.tsx:24-32 | on mount every subject of the history is expanded |
| Sidebar.SidebarState.ToggleSubject | frontend/app/components/SideBar.tsx:60-68 | the state becomes the toggled set |
| Sidebar.SidebarState.GroupedHistory | frontend/app/components/SideBar.tsx:35-58 | the rendered groups are the grouping of the history prop |

## Left out

- The Firestore client is an abstract map. Query result order is not modelled, because Firestore does not specify it; the list contracts state membership and multiplicity only.
- Firestore's own failures (network, permissions) and the `datetime` clock are left out. The clock value is a parameter.
- Writing an explicit null to a non-nullable field of an update is not modelled. The model's `Field` is either unset or a value of the stored field's type.
- pydantic validation and `EmailStr` checks are not modelled. Emails are compared as plain strings.
- Gemini.GenerateWithGemini: the HTTP calls, timeouts, logging and the JSON payload are not modelled. The text of the 500 detail string is not modelled either: the model keeps the last error as a structured value.
- Gemini.GenerateWithGemini: a model name listed twice gets the same outcome both times, because each call is a function of model and prompt.
- Gemini.ListAvailableModels: a listing reply whose JSON cannot be parsed is the same outcome as a listing that raised.
- Users.UserService.CreateUser: when several stored users share the email, which one `limit(1)` returns is not pinned down. The contract says only that it is a stored user with that email.
- The other services (subjects, topics, slides, notes), the FastAPI routes, OAuth, calendar and YouTube integrations, and the React pages are not part of this model.
- Recurring study-session date expansion is not present in the source (frontend/app/schedule/page.tsx only logs its inputs), so it is not modelled.
- Sidebar.SidebarState: the history is fixed when the sidebar mounts. The `useState` initializer runs once, so a subject that a later `history` prop adds starts collapsed while `useMemo` regroups it; prop changes after mount are not modelled.
- Sidebar rendering, opening and closing the sidebar, and `handleSubjectClick` are presentation only and are not modelled.

# Verified model of the lang-portal statistics, the transcript downloader and the Bedrock chat client

This Dafny project models the self-contained logic of three parts of the
free-genai-bootcamp-2025 repository:

- **Dashboard statistics** (`lang-portal/backend/main.py`, `get_dashboard_stats`).
  The single SQL statement becomes a pure function `Dashboard.ComputeStats` over a
  snapshot of the words, groups, study activities, study sessions and word review
  items, plus the current date as a day number. Each table is a sequence of rows,
  with the record shapes of `init_db.py`. The function returns the seven
  `DashboardStats` fields:
  - `total_vocabulary` is the number of word rows.
  - `total_words_studied` is the number of distinct reviewed word ids.
  - `mastered_words` counts reviewed words with `5·correct ≥ 4·reviews`. This is the
    query's `AVG(...) >= 0.8`. The field comment says ">80%", but the code wins.
  - `success_rate` is the exact ratio of correct reviews to all reviews, and 0
    when there are none.
  - `total_sessions` is the row count of the join sessions ⋈ activities ⋈ groups,
    limited to sessions starting on or after `today − 30`. Despite its comment,
    it is not a count of all sessions.
  - `active_groups` is the number of distinct group ids among those join rows.
  - `current_streak` walks back from the latest session date over consecutive
    dates. It reads every session and ignores both `today` and the window.
- **Pagination and sort validation** of `get_words` and `get_study_sessions`:
  - the offset `(page − 1)·size`;
  - the page count `(total + size − 1) // size`, using Python floor division, which
    raises on a zero page size;
  - the column whitelists with their fallbacks, and the `order.lower()` check.
- **YouTube transcript downloader** (`listening-comp/backend/get_transcript.py`):
  - `extract_video_id`, with the exact `split(...)[1][:11]` semantics;
  - how `get_transcript` resolves an id;
  - the path and content written by `save_transcript`;
  - the result map of `download_playlist_transcripts`.

  The playlist listing, the transcript service and the file write are function
  parameters.
- **Bedrock chat client** (`listening-comp/backend/bedrock_chat.py`). The client
  is an immutable value holding the settings and a conversation log that its own
  operations only append to or clear.
  The model invocation is a function parameter that returns either a decoded body
  or the text of a raised exception. The wall-clock timestamp is also a parameter.

Modules: `Wrappers` (Option/Result), `Collections` (cardinality facts), `Text`
(substring search, `split`, slicing), `LangStore` (rows), `WordStats`,
`SessionStats`, `Streak`, `Dashboard`, `Pagination`, `Transcripts`, `BedrockChat`.

`total_words_studied ≤ total_vocabulary` does not always hold: `delete_word`
(`lang-portal/backend/main.py:225`) deletes the word row but leaves its review
rows behind. The model follows the code:
- `Dashboard.ComputeStats` proves the inequality only when every review names an
  existing word.
- `Dashboard.OrphanReviewsOutnumberVocabulary` exhibits a store where it fails.

The streak uses only the latest session date, never the current date.

## Model

| member | source | states |
|---|---|---|
| Dashboard.ComputeStats | lang-portal/backend/main.py:557-632 | mastered ≤ studied; success rate in [0,1]; active groups ≤ total sessions; studied ≤ vocabulary when every review's word exists; no reviews gives studied = mastered = 0 and rate 0; streak is 0 exactly when there are no sessions, and at most the number of distinct session dates |
| Dashboard.ExampleStoreStats | lang-portal/backend/tests/test_dashboard_stats.py:25-84 | the test fixture (3 words; word 1 reviewed T,T,T; word 2 reviewed F,T; three sessions of one group on today−2, today−1, today) yields (3, 2, 1, 0.8, 3, 1, 3) |
| Dashboard.EmptyStoreIsAllZero | lang-portal/backend/tests/test_dashboard_stats.py:86-105 | an empty store yields all seven fields 0 |
| Dashboard.StreakIgnoresToday | lang-portal/backend/main.py:600-619 | the streak is the same whatever the current date |
| Dashboard.GapEndsStreak | lang-portal/backend/main.py:600-619 | sessions on today, today−1, today−2 and today−4 give streak 3: the gap stops the walk |
| Dashboard.OrphanReviewsOutnumberVocabulary | lang-portal/backend/main.py:221-229 | a review left behind by a deleted word makes total_words_studied (1) exceed total_vocabulary (0) |
| WordStats.SuccessRate | lang-portal/backend/main.py:572 | the rate times the number of reviews is the number of correct reviews; it lies in [0,1]; it is 0 with no reviews |
| WordStats.StudiedWords | lang-portal/backend/main.py:571 | a word id is counted as studied exactly when it has at least one review |
| WordStats.ReviewedIffCounted | lang-portal/backend/main.py:571 | a word has a review row exactly when its review count is positive |
| WordStats.MasteredWords | lang-portal/backend/main.py:573-581 | a word is mastered exactly when it has at least one review and 5·correct ≥ 4·reviews; mastered words are studied words |
| WordStats.MasteryThreshold | lang-portal/backend/main.py:579 | for a positive review count, the exact ratio correct/reviews is ≥ 0.8 exactly when 5·correct ≥ 4·reviews |
| WordStats.OnlyWrongNeverMastered | lang-portal/backend/main.py:576-580 | a word with reviews but no correct one is studied and not mastered |
| WordStats.MasteredAtMostStudied | lang-portal/backend/main.py:571-581 | mastered word ids are a subset of studied ones, so there are no more of them |
| WordStats.StudiedAtMostVocabulary | lang-portal/backend/main.py:571-594 | when every review's word exists, no more words are studied than there are word rows |
| SessionStats.TotalSessions | lang-portal/backend/main.py:586 | with unique keys, total_sessions is the number of sessions starting on or after today−30 whose activity and group exist |
| SessionStats.ActiveGroups | lang-portal/backend/main.py:584-592 | active_groups is the number of groups g such that some session starting on or after today−30 runs an activity of group g and g exists; it is at most total_sessions |
| SessionStats.GroupMatchesElements | lang-portal/backend/main.py:590 | a group id comes out of the group join exactly when a group row has that key |
| SessionStats.ActivityJoinElements | lang-portal/backend/main.py:588-590 | the group ids joined to an activity id are those of its activity rows whose group exists |
| SessionStats.RecentJoinGroups | lang-portal/backend/main.py:587-591 | the distinct group ids of the windowed join are the groups of activities run by sessions in the window, when those groups exist |
| SessionStats.GroupMatchesSize | lang-portal/backend/main.py:590 | with unique group keys, a group id joins one group row or none |
| SessionStats.ActivityJoinSize | lang-portal/backend/main.py:588-590 | with unique keys, a session yields one join row if its activity and that activity's group exist, else none |
| SessionStats.TotalSessionsCountsJoinableSessions | lang-portal/backend/main.py:584-592 | with unique keys, total_sessions equals the number of sessions starting on or after today−30 whose activity and group exist |
| Streak.LatestDay | lang-portal/backend/main.py:602-607 | the latest session date is a study date and no session starts later |
| Streak.RunBack | lang-portal/backend/main.py:601-618 | the run length k from day d: every day in (d−k, d] has a session, d−k has none, and k ≤ number of distinct dates |
| Streak.RunBackUnique | lang-portal/backend/main.py:601-618 | any k with those two properties is the run length (the walk stops at the first gap) |
| Streak.CurrentStreak | lang-portal/backend/main.py:600-619 | 0 with no sessions; otherwise between 1 and the number of distinct dates, covering consecutive dates back from the latest date and stopping at the first missing one |
| Streak.WalkBackStreak | lang-portal/backend/main.py:600-619 | the explicit loop (collect distinct dates and the latest, then step back while present) computes the same streak |
| Pagination.FloorDiv | lang-portal/backend/main.py:164 | Python's `//`: the quotient rounded toward negative infinity, for either sign of divisor |
| Pagination.TotalPages | lang-portal/backend/main.py:164 | fails exactly for page size 0; for a positive size, pages·size ≥ total, (pages−1)·size < total when total > 0, and 0 pages for 0 items (the same formula is used at main.py:451) |
| Pagination.Offset | lang-portal/backend/main.py:157 | page 1 has offset 0; with a positive page size the offset is negative exactly before page 1 and at least one full page from page 2 on (same offset at main.py:417) |
| Pagination.OffsetsStepByPageSize | lang-portal/backend/main.py:157 | page 1 starts at offset 0 and each next page starts page_size rows later (same offset at main.py:417) |
| Pagination.EveryRowOnOnePage | lang-portal/backend/main.py:156-164 | with a positive size, every row index below the total lies on exactly one page, numbered between 1 and total_pages |
| Pagination.WordSortColumn | lang-portal/backend/main.py:116-124 | no ordering for a missing or empty sort_by; a whitelisted column is kept; anything else becomes word_hindi_text; the result is always whitelisted |
| Pagination.WordsOrderClause | lang-portal/backend/main.py:152-153 | empty without a column; otherwise " ORDER BY <validated column> " followed by sort_order exactly as passed (an explicit None renders as "None"); the order is not validated |
| Pagination.SessionSort | lang-portal/backend/main.py:410-414 | the sort field always ends in the whitelist and the order's lower case in {asc, desc}; valid inputs are kept unchanged, case included; the fallbacks are start_time and desc |
| Pagination.SessionSortIdempotent | lang-portal/backend/main.py:410-414 | validating already validated parameters changes nothing |
| Pagination.UpperCaseOrderKept | lang-portal/backend/main.py:413-414 | "ASC" is accepted as is; an unknown field and "descending" fall back to start_time/desc |
| Text.IndexOfFrom | listening-comp/backend/get_transcript.py:21-24 | the first index at or after `from` where the pattern occurs, or None when it occurs nowhere from there |
| Text.SecondPiece | listening-comp/backend/get_transcript.py:22-24 | `split(sep)[1]` is a prefix of the text after the first separator in which no separator starts, and it ends at the end of that text or where the next separator starts |
| Text.Take | listening-comp/backend/get_transcript.py:22-24 | `[:n]` is a prefix of length min(n, length) |
| Transcripts.NewDownloader | listening-comp/backend/get_transcript.py:8-9 | the default language preference is ["hi", "en"] |
| Transcripts.ExtractVideoId | listening-comp/backend/get_transcript.py:11-25 | None exactly when the URL contains neither "v=" nor "youtu.be/"; when "v=" occurs, even if "youtu.be/" also does, the id is the longest prefix of the text after the first "v=" that has at most 11 characters and in which no "v=" starts; otherwise the same after the first "youtu.be/" |
| Transcripts.IdAfter | listening-comp/backend/get_transcript.py:22-24 | `split(marker)[1][:11]` stops at 11 characters, at the end of the text, or where the next marker starts, whichever comes first |
| Transcripts.IdFromUnique | listening-comp/backend/get_transcript.py:22-24 | those stopping conditions determine the id uniquely |
| Transcripts.EmptyIdAfterTrailingMarker | listening-comp/backend/get_transcript.py:22 | a URL ending in "v=" yields the empty id, not None |
| Transcripts.QueryMarkerWinsOverShortLink | listening-comp/backend/get_transcript.py:21-24 | "youtu.be/abc?v=xyz" yields "xyz": the "v=" branch takes precedence |
| Transcripts.LongIdTruncated | listening-comp/backend/get_transcript.py:22 | the text after "v=" is cut to its first 11 characters |
| Transcripts.TranscriptRequestId | listening-comp/backend/get_transcript.py:96-101 | input containing "youtube.com" or "youtu.be" goes through extraction; other input is used verbatim; a missing or empty id means no service call |
| Transcripts.GetTranscript | listening-comp/backend/get_transcript.py:96-109 | None without calling the service when no id results; otherwise exactly the service's answer for that id and the downloader's languages |
| Transcripts.PlainIdPassedVerbatim | listening-comp/backend/get_transcript.py:96-106 | a non-empty input naming no YouTube host is passed to the service unchanged |
| Transcripts.TranscriptPath | listening-comp/backend/get_transcript.py:122 | the path is "./transcripts/" + name + ".txt", and the name is recoverable from it |
| Transcripts.TranscriptContent | listening-comp/backend/get_transcript.py:125-127 | the content is empty exactly when there are no entries; otherwise it starts with the first entry's text followed by a newline and ends with a newline |
| Transcripts.SaveTranscript | listening-comp/backend/get_transcript.py:111-131 | writes ./transcripts/<name>.txt; when no text holds a newline, the written lines are the entries' texts; the content is empty exactly for no entries and otherwise ends with a newline; it is the transcript content; the flag is the write's success |
| Transcripts.ContentSnoc | listening-comp/backend/get_transcript.py:126-127 | appending an entry appends its text followed by one newline, so with the empty content for no entries the content of every transcript is pinned, including texts that contain newlines |
| Transcripts.ContentLinesRoundTrip | listening-comp/backend/get_transcript.py:125-127 | when no text holds a newline, splitting the written content into lines gives back the entries' texts, in order |
| Transcripts.ContentAppend | listening-comp/backend/get_transcript.py:126-127 | the content of concatenated transcripts is the concatenation of their contents |
| Transcripts.Outcome | listening-comp/backend/get_transcript.py:147-157 | a video's status is False when no non-empty transcript was obtained, otherwise whether writing its content to ./transcripts/<id>.txt succeeded |
| Transcripts.DownloadPlaylistTranscripts | listening-comp/backend/get_transcript.py:144-159 | no result when listing the playlist raises; otherwise a key for every listed video id and no other key, the value False when no non-empty transcript was obtained and otherwise whether writing it under the id succeeded |
| BedrockChat.NewClient | listening-comp/backend/bedrock_chat.py:23-27 | a new client has an empty history and stores temperature and max_tokens unclamped |
| BedrockChat.DefaultClient | listening-comp/backend/bedrock_chat.py:7-13 | defaults: model amazon.nova-micro-v1:0, temperature 0.7, 1000 tokens, no region |
| BedrockChat.FormatMessage | listening-comp/backend/bedrock_chat.py:29-42 | one user message with the given content, the current temperature, maxTokenCount = max_tokens, no stop sequences, topP 0.9 |
| BedrockChat.AddToHistory | listening-comp/backend/bedrock_chat.py:80-86 | exactly one entry is appended with the given timestamp, message and response; earlier entries and settings are unchanged |
| BedrockChat.ClearHistory | listening-comp/backend/bedrock_chat.py:92-94 | the history becomes empty and every setting is unchanged |
| BedrockChat.Clamp | listening-comp/backend/bedrock_chat.py:103 | the result lies in [0,1], equals an in-range input, and is 0 below the range and 1 above it |
| BedrockChat.UpdateSettings | listening-comp/backend/bedrock_chat.py:96-105 | a given temperature is stored as Clamp of it, so it lies in [0,1] and is kept when in range; a given max_tokens is stored with no bounds check; an absent argument leaves its setting alone; history untouched |
| BedrockChat.Chat | listening-comp/backend/bedrock_chat.py:44-78 | on a reply, one entry is logged whose bot response is the returned text (the body's "generation", else ""); when the call raises, it returns "Error in chat: " + the reason and the client is unchanged |
| BedrockChat.ChatAll | listening-comp/backend/bedrock_chat.py:44-78 | a run of chats leaves the settings unchanged, keeps the earlier history as a prefix, and adds at most one entry per message |
| BedrockChat.ChatAllAppendsSuccesses | listening-comp/backend/bedrock_chat.py:54-86 | after a run of chats, the history is the old history followed by exactly the successful exchanges in order; settings unchanged |
| BedrockChat.UpdatedSettingsReachRequests | listening-comp/backend/bedrock_chat.py:38-39 | after update_settings, each request carries the clamped temperature and the new token limit |
| BedrockChat.ClearAfterChat | listening-comp/backend/bedrock_chat.py:92-94 | clearing after a chat gives the same client as clearing before it |
| BedrockChat.ClampIdempotent | listening-comp/backend/bedrock_chat.py:103 | clamping a clamped temperature changes nothing |

## Left out

- HTTP layer: FastAPI routing, CORS, response models, and the mapping of errors to status codes. A failing database read is not modelled; the code turns it into an HTTP 500.
- SQL execution of the list endpoints: the LIKE search filter, the rows selected by LIMIT/OFFSET, and the per-word correct/wrong counts of `get_words`. Only the parameters handed to SQL are modelled.
- CRUD endpoints, health and system endpoints, database-size statistics, logging and timing. These are plain parameterised SQL or environment I/O.
- `init_db.py`: it only deletes the file and creates the schema and fixtures. It is used only for the row shapes.
- NULL foreign keys. Every id in the model is an integer, because the API's request models require integer ids on every write path. A NULL `word_id` in a review would be counted by the mastery subquery (its own GROUP BY group) but not by `COUNT(DISTINCT word_id)`.
- Time of day and time zones. A session carries only its start date as a day number. The difference between `date('now')` in UTC and locally stamped start times is not modelled.
- The streak CTE exactly as written (ORDER BY/LIMIT before UNION ALL, GROUP BY in the recursive step), which SQLite may reject. The model gives the semantics the dashboard test expects.
- Floating point. The success rate and the temperature are exact reals. For realistic review counts, a float `AVG` compared with `0.8` agrees with the exact ratio.
- Endpoint parameter defaults (main.py:106-108 and 399-402: sort_order "asc", page 1, page size 10, sort_by "start_time", order "desc") are applied by FastAPI before the modelled code runs. The model takes every parameter as already defaulted, so the None case of Pagination.WordsOrderClause stands only for an explicit null sort_order.
- Pagination.SessionSort: lower-cases ASCII letters only. Python's `str.lower()` is full Unicode, but no non-ASCII character lower-cases into "asc" or "desc", so the membership test is exact.
- Playlist listing (`get_playlist_video_ids`, `extract_playlist_id`) and the YouTube Data API pagination are replaced by an oracle `listVideos`. Its None stands for the exceptions these raise (a `list=` URL without a parseable `list` query value at get_transcript.py:39, a response without `items` at :76); `download_playlist_transcripts` does not catch them.
- The transcript service, its exceptions (read as None) and real file writes are oracles `fetch` and `write`. An entry without a `text` key is not modelled.
- Console output: every `print`, the `print_transcript` flag, and the script's `main`.
- boto3 client creation and `invoke_model`, JSON encoding of the request and decoding of the response. The `invoke` oracle stands in for all of them, and a non-string "generation" value is not modelled. `get_conversation_history` is the `history` field.
- Aliasing of the conversation log: `get_conversation_history` (bedrock_chat.py:88-90) returns the live list, so a caller can mutate the client's history, and a list obtained before `clear_history` keeps the old turns because :94 binds a new list. The model's history is a value; "append-only" holds only for changes made through the client's own methods.
- Order of the playlist result: `download_playlist_transcripts` returns a dict whose keys are ordered by each id's first listing (get_transcript.py:145-157). The model's `map<string, bool>` keeps the keys and values but not that order.
- Lambda proxy, OAuth token helper, question-generator stub and the React frontend. These are outside the modelled core.

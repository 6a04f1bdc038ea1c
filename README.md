# homework_bot: the pure checks of the homework-status bot

The bot polls a homework-review API and tells a chat user when the review
status of their homework changes. This project models the part of
`homework.py` that is pure logic, as Dafny functions and lemmas:

- `HOMEWORK_VERDICTS`: the fixed table from review status (`approved`,
  `reviewing`, `rejected`) to the verdict the user sees (`Homework.Verdicts`).
- `check_tokens`: the guard on the credentials read from the environment
  (`Homework.CheckTokens`). Each token is a string or `None`.
- `check_response`: the structural check on the value `response.json()`
  returns (`Homework.CheckResponse`). The decoded JSON value is `Json.Value`.
- `parse_status`: the mapping from one homework record to the notification
  text, or to `None` (`Homework.ParseStatus`).

A raised exception becomes `Results.Err` with a `TokenError`, `TypeError` or
`KeyError` and the argument it is raised with. A Python `None` return becomes
`Results.None`. The three Python `any(...)` tests and the list `in` test are
recursive functions over sequences. Each states which elements make it true.

`parse_status` puts `lesson_name` into the text with `str.format`. The model
renders `None`, booleans, integers and strings exactly as Python's `str()`
does. A list or dict lesson name is rendered by the parameter `containerStr`,
which stands for Python's `repr` of it. Dafny functions are deterministic, so
"the same record always gives the same result" holds by construction.
`ParseStatusReadsOnlyStatusAndLessonName` states the stronger fact that only
the `status` and `lesson_name` entries are read. `ParseMessage` reads a
notification back into its lesson-name text and status key. Together with
`MessageRoundTrip` it shows that different (lesson-name text, status key)
pairs give different notifications. Different records can still share a
notification: the integer lesson name `5` and the string `"5"` render to the
same text, as do `None` and `"None"`.

The model follows what the code does, where a reader might expect otherwise:
- The code wants the payload to be a list, not an object.
- The code reads `lesson_name`, not a `name` or `homework_name` field.
- The code returns `None` for an unknown status instead of raising an error.
- The code rejects only `None` tokens. It accepts empty strings.
- As written, `check_response` accepts no payload at all (see Findings).

## Model

| member | source | states |
|---|---|---|
| `Homework.AnyMissing` | homework.py:48 | the `any` over the tuple is true exactly when some token is `None` |
| `Homework.CheckTokens` | homework.py:43-51 | raises TokenError with the source's message exactly when some token is `None`; otherwise it returns normally (so empty strings and the empty tuple pass) |
| `Homework.MissingTokenInMultiset` | homework.py:48-51 | check_tokens fails exactly when `None` is in the bag of tokens |
| `Homework.CheckTokensIgnoresOrder` | homework.py:48 | two token tuples that are permutations of each other get the same outcome |
| `Homework.CheckTokensExamples` | homework.py:48-51 | three empty strings pass, the empty tuple passes, and one `None` among three tokens raises TokenError |
| `Homework.AnyNotDict` | homework.py:99 | the `any` is true exactly when some element is not a dict |
| `Homework.CheckResponse` | homework.py:89-108 | a payload that is not a list raises TypeError "not a list"; a list raises TypeError "not a dict" exactly when some element is not a dict; a success returns the payload's own list |
| `Homework.DictListHasNoHomeworksKey` | homework.py:99-106 | every list of dicts, the empty list included, raises KeyError with the "no homeworks key" message |
| `Homework.CheckResponseNeverSucceeds` | homework.py:95-108 | no payload reaches the success return: every payload raises TypeError or the KeyError of line 104 |
| `Homework.CheckResponseOrder` | homework.py:95-106 | the element check runs before the key check: `['homeworks']` raises TypeError "not a dict", and a dict payload raises TypeError "not a list" |
| `Homework.CheckResponseIntended` | homework.py:89-108 | corrected check: succeeds exactly when the payload is a dict whose `homeworks` entry is a list of dicts, and then returns that list; a payload without that key raises KeyError |
| `Homework.ApiAnswerRejected` | homework.py:93-98 | the API's answer `{"homeworks": [], "current_date": 1000}` raises TypeError as written and is accepted by the corrected check |
| `Homework.AnyKeyEquals` | homework.py:116 | the `any` over the verdict keys is true exactly when the status equals one of them as a string |
| `Homework.ParseStatus` | homework.py:111-125 | a missing `status` raises KeyError('status'); a status that is not a verdict key returns `None`; for a verdict key a missing `lesson_name` raises KeyError('lesson_name'); a verdict key with `lesson_name` present returns exactly the notification for the rendered lesson name and that key's verdict, and a notification is returned only then |
| `Homework.ParseStatusReadsOnlyStatusAndLessonName` | homework.py:116-123 | two records that agree on `status` and `lesson_name` get the same result, whatever else they hold |
| `Homework.UnknownStatusIgnoresLessonName` | homework.py:116-125 | for an unknown status the result is `None` whether `lesson_name` is absent or holds any value |
| `Homework.HomeworkNameIsNotRead` | homework.py:120-121 | a record with `homework_name` and status `approved` but no `lesson_name` raises KeyError('lesson_name') |
| `Homework.ParseStatusExamples` | homework.py:26-30 | an approved `hw1` gives the verbatim message with the `approved` verdict; status `weird` gives `None` |
| `Homework.VerdictEndingsDiffer` | homework.py:26-30 | no two verdict texts end in the same two characters |
| `Homework.MatchVerdict` | homework.py:120-123 | a verdict key it finds comes from the keys it scans, and the text is exactly the notification for that key and the name it returns |
| `Homework.ParseMessage` | homework.py:120-123 | whatever it reads back is a verdict key and a name whose notification is exactly the text it was given |
| `Homework.OwnTailMatches` | homework.py:120-123 | a notification starts with the fixed prefix and ends with the separator and its own verdict, with the lesson name between them |
| `Homework.OtherTailDiffers` | homework.py:120-123 | a notification does not end with the separator followed by any other verdict |
| `Homework.MatchVerdictFinds` | homework.py:120-123 | scanning keys that include a notification's own key finds that key and the lesson name |
| `Homework.MessageRoundTrip` | homework.py:120-123 | reading a notification back gives the lesson name and status key it was built from |
| `Homework.ParseStatusReadsBack` | homework.py:111-123 | a notification from parse_status reads back as the record's rendered `lesson_name` and its `status` |
| `Json.IntText` | homework.py:120-121 | the text of an integer lesson name starts with a minus sign exactly when the integer is negative, denotes that integer as a signed decimal, and is canonical: no leading zero after the sign, and `"0"` is the only text starting with `0` |
| `Json.NatText` | homework.py:120-121 | the digits of a natural number: non-empty, decimal, denoting that number, and with no leading zero (only 0 itself starts with `0`, as `"0"`) |
| `Json.Text` | homework.py:120-121 | the text `format` substitutes for `lesson_name`: `None`, `True`/`False`, the string itself, the canonical signed decimal text denoting an integer, and `containerStr`'s text for a list or dict |
| `Homework.Message` | homework.py:120 | the notification is the fixed prefix, then the lesson-name text, then the separator `". ` and the verdict of the key, with nothing else |
| `Homework.Contains` | homework.py:103 | the list `in` test is true exactly when some element equals the value |
| `Homework.VerdictKeysAreTheTable` | homework.py:26-30 | the scanned key list holds each key of the verdict table once and nothing else |

## Left out

- `get_api_answer` (homework.py:73-86): a network call through `requests`. Its error handler also reads `response` before it is assigned.
- `response.json()` (homework.py:93): JSON decoding is a foreign call, so `CheckResponse` takes the decoded value. JSON floats are not modelled; `Json.Value` has integers only.
- `send_message` and `start` (homework.py:54-70, 128-143): Telegram `Bot` and `Updater` calls with logging.
- `main` (homework.py:146-174): an endless polling loop with `time.sleep`, Telegram polling, `pprint` and `print`. `updater.idle()` blocks before the loop starts. `timestamp` is set once and never advanced, and `current_date` is never read, so there is no checkpoint state to model.
- Loading the environment and setting up logging (homework.py:16-20, 32-40). The log calls inside the modelled functions have no effect on results.
- `error_handler.py` is not part of this model. `TokenError` is kept only with its message.
- `Homework.ParseStatus`: Python's `repr` of a list or dict `lesson_name` is the parameter `containerStr`, not computed. It depends on dict insertion order, which a map does not keep, and on Python's string quoting rules.
- `Homework.CheckTokens`: the model takes tokens as strings or `None`, as `getenv` returns them. Other Python objects in the tuple are not modelled.

## Findings

| source | as written | input that shows it | evidently intended | confidence | as-written member | corrected member |
|---|---|---|---|---|---|---|
| homework.py:95-108 | tests the decoded payload itself for being a list of dicts, then tests whether the string 'homeworks' is one of its elements, which a dict never is | `{"homeworks": [], "current_date": 1000}` raises TypeError; `[]` and every other list of dicts raises KeyError | take `response.json()['homeworks']`, require a list of dicts, and return that list | high; not executed | `Homework.CheckResponseNeverSucceeds` | `Homework.CheckResponseIntended` |

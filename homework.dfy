/** The pure checks of the homework-status bot: the credential guard, the
    structural check of a decoded API answer, and the mapping of one homework
    record to the notification text. */
module Homework {
  import opened Results
  import opened Json

  // ---------------------------------------------------------------------------
  // The verdict table

  /** The keys of HOMEWORK_VERDICTS, in the dict's insertion order. */
  const VerdictKeys: seq<string> := ["approved", "reviewing", "rejected"]

  /** HOMEWORK_VERDICTS: review status -> the verdict shown to the user. */
  const Verdicts: map<string, string> := map[
    "approved" := "Работа проверена: ревьюеру всё понравилось. Ура!",
    "reviewing" := "Работа взята на проверку ревьюером.",
    "rejected" := "Работа проверена: у ревьюера есть замечания."
  ]

  /** VerdictKeys lists the table's keys, each once. */
  lemma VerdictKeysAreTheTable()
    ensures (set k | k in VerdictKeys) == Verdicts.Keys
    ensures |VerdictKeys| == |Verdicts|
  {
  }

  /** The notification text around the lesson name and the verdict. */
  const Prefix: string := "Изменился статус проверки работы \""
  const Separator: string := "\". "

  const TokenMissingMessage: string := "Ошибка. Отсутствуют или неверно указаны токены"
  const NotListMessage: string := "Ошибка. Все домашки должны передаваться в списке"
  const NotDictMessage: string := "Ошибка. Каждая домашка должна передаваться в словаре"
  const NoHomeworksMessage: string := "Не найдены данные по ключю homeworks"

  // ---------------------------------------------------------------------------
  // check_tokens

  /** `any([x is None for x in tokens])`. */
  function AnyMissing(tokens: seq<Option<string>>): (b: bool)
    ensures b <==> exists i :: 0 <= i < |tokens| && tokens[i].None?
  {
    if tokens == [] then false else tokens[0].None? || AnyMissing(tokens[1..])
  }

  /** check_tokens: each token is what `getenv` returned, a string or `None`.
      It raises TokenError exactly when some token is `None`; an empty string
      passes, and so does an empty tuple. */
  function CheckTokens(tokens: seq<Option<string>>): (r: Result<()>)
    ensures r.Err? <==> exists i :: 0 <= i < |tokens| && tokens[i].None?
    ensures r.Err? ==> r.error == TokenError(TokenMissingMessage)
  {
    if AnyMissing(tokens) then Err(TokenError(TokenMissingMessage)) else Ok(())
  }

  /** The outcome of check_tokens does not depend on the order of the tokens. */
  lemma CheckTokensIgnoresOrder(a: seq<Option<string>>, b: seq<Option<string>>)
    requires multiset(a) == multiset(b)
    ensures CheckTokens(a) == CheckTokens(b)
  {
    MissingTokenInMultiset(a);
    MissingTokenInMultiset(b);
  }

  /** check_tokens fails exactly when `None` is among the tokens, counted as a bag. */
  lemma MissingTokenInMultiset(tokens: seq<Option<string>>)
    ensures CheckTokens(tokens).Err? <==> None in multiset(tokens)
  {
    assert (None in multiset(tokens)) <==> (None in tokens);
  }

  /** Empty strings are accepted and so is the empty tuple; one unset
      variable among three is refused. */
  lemma CheckTokensExamples()
    ensures CheckTokens([Some(""), Some(""), Some("")]) == Ok(())
    ensures CheckTokens([]) == Ok(())
    ensures CheckTokens([Some("practicum"), None, Some("chat")]) == Err(TokenError(TokenMissingMessage))
  {
    assert [Some("practicum"), None, Some("chat")][1].None?;
  }

  // ---------------------------------------------------------------------------
  // check_response

  /** `any(not isinstance(x, dict) for x in items)`. */
  function AnyNotDict(items: seq<Value>): (b: bool)
    ensures b <==> exists i :: 0 <= i < |items| && !items[i].Object?
  {
    if items == [] then false else !items[0].Object? || AnyNotDict(items[1..])
  }

  /** Python's `x in items` on a list: some element equals `x`. */
  function Contains(items: seq<Value>, x: Value): (b: bool)
    ensures b <==> exists i :: 0 <= i < |items| && items[i] == x
  {
    if items == [] then false else items[0] == x || Contains(items[1..], x)
  }

  /** check_response, applied to the value `response.json()` returned. The
      payload must be a list, every element of it a dict, and the string
      'homeworks' an element of it; the first check that fails decides the
      exception. */
  function CheckResponse(payload: Value): (r: Result<seq<Value>>)
    ensures !payload.List? ==> r == Err(TypeError(NotListMessage))
    ensures payload.List? ==>
              ((exists i :: 0 <= i < |payload.items| && !payload.items[i].Object?)
               <==> r == Err(TypeError(NotDictMessage)))
    ensures r.Ok? ==> payload.List? && r.value == payload.items
  {
    match payload
    case List(items) =>
      if AnyNotDict(items) then Err(TypeError(NotDictMessage))
      else if !Contains(items, Str("homeworks")) then Err(KeyError(NoHomeworksMessage))
      else Ok(items)
    case _ => Err(TypeError(NotListMessage))
  }

  /** A list of dicts, the empty list included, never contains the string
      'homeworks', so it fails the key check. */
  lemma DictListHasNoHomeworksKey(items: seq<Value>)
    requires forall i :: 0 <= i < |items| ==> items[i].Object?
    ensures CheckResponse(List(items)) == Err(KeyError(NoHomeworksMessage))
  {
  }

  /** check_response never reaches its success return: every payload ends in
      TypeError or KeyError. */
  lemma CheckResponseNeverSucceeds(payload: Value)
    ensures CheckResponse(payload).Err?
    ensures CheckResponse(payload).error.TypeError? || CheckResponse(payload).error == KeyError(NoHomeworksMessage)
  {
  }

  /** The element check comes first: a list holding the string 'homeworks'
      itself is refused as "not a dict", and a dict payload as "not a list". */
  lemma CheckResponseOrder()
    ensures CheckResponse(List([Str("homeworks")])) == Err(TypeError(NotDictMessage))
    ensures CheckResponse(List([Object(map[]), Str("homeworks")])) == Err(TypeError(NotDictMessage))
    ensures CheckResponse(Object(map["homeworks" := List([])])) == Err(TypeError(NotListMessage))
  {
    assert !List([Object(map[]), Str("homeworks")]).items[1].Object?;
  }

  /** What check_response evidently means to do: select `response['homeworks']`,
      require it to be a list of dicts, and return that list. */
  function CheckResponseIntended(payload: Value): (r: Result<seq<Value>>)
    ensures r.Ok? <==> payload.Object? && "homeworks" in payload.fields
                       && payload.fields["homeworks"].List?
                       && forall i :: 0 <= i < |payload.fields["homeworks"].items|
                            ==> payload.fields["homeworks"].items[i].Object?
    ensures r.Ok? ==> r.value == payload.fields["homeworks"].items
    ensures !(payload.Object? && "homeworks" in payload.fields) ==> r == Err(KeyError(NoHomeworksMessage))
  {
    if !(payload.Object? && "homeworks" in payload.fields) then Err(KeyError(NoHomeworksMessage))
    else
      var homeworks := payload.fields["homeworks"];
      if !homeworks.List? then Err(TypeError(NotListMessage))
      else if AnyNotDict(homeworks.items) then Err(TypeError(NotDictMessage))
      else Ok(homeworks.items)
  }

  /** The answer the API gives, `{"homeworks": [], "current_date": 1000}`, is
      rejected as "not a list" by check_response as written and accepted by the
      intended check. */
  lemma ApiAnswerRejected()
    ensures CheckResponse(Object(map["homeworks" := List([]), "current_date" := Int(1000)]))
            == Err(TypeError(NotListMessage))
    ensures CheckResponseIntended(Object(map["homeworks" := List([]), "current_date" := Int(1000)]))
            == Ok([])
  {
  }

  // ---------------------------------------------------------------------------
  // parse_status

  /** The reference meaning of "status is one of the verdict keys". */
  predicate IsVerdict(status: Value) {
    status.Str? && status.s in Verdicts
  }

  /** `any([x == status for x in keys])`: a `str` key equals only a `str`. */
  function AnyKeyEquals(keys: seq<string>, status: Value): (b: bool)
    ensures b <==> exists i :: 0 <= i < |keys| && Str(keys[i]) == status
  {
    if keys == [] then false else Str(keys[0]) == status || AnyKeyEquals(keys[1..], status)
  }

  /** The notification for a lesson name text and a verdict key. */
  function Message(name: string, status: string): (r: string)
    requires status in Verdicts
    ensures |r| == |Prefix| + |name| + |Separator| + |Verdicts[status]|
    ensures r[..|Prefix|] == Prefix
    ensures r[|Prefix|..|Prefix| + |name|] == name
    ensures r[|r| - |Separator| - |Verdicts[status]|..] == Separator + Verdicts[status]
  {
    Prefix + name + Separator + Verdicts[status]
  }

  /** parse_status. A missing 'status' raises KeyError('status'); a status that
      is not a verdict key gives `None` without looking at 'lesson_name'; for a
      verdict key a missing 'lesson_name' raises KeyError('lesson_name'), and
      otherwise the result is the notification naming the lesson and the
      verdict. `containerStr` renders a list or dict lesson name. */
  function ParseStatus(homework: map<string, Value>, containerStr: Value -> string): (r: Result<Option<string>>)
    ensures r == Err(KeyError("status")) <==> "status" !in homework
    ensures r == Ok(None) <==> "status" in homework && !IsVerdict(homework["status"])
    ensures r == Err(KeyError("lesson_name")) <==>
              "status" in homework && IsVerdict(homework["status"]) && "lesson_name" !in homework
    ensures r.Ok? && r.value.Some? ==>
              "status" in homework && IsVerdict(homework["status"]) && "lesson_name" in homework
              && r.value.value == Message(Text(homework["lesson_name"], containerStr), homework["status"].s)
    ensures "status" in homework && IsVerdict(homework["status"]) && "lesson_name" in homework ==>
              r == Ok(Some(Message(Text(homework["lesson_name"], containerStr), homework["status"].s)))
  {
    if "status" !in homework then Err(KeyError("status"))
    else if AnyKeyEquals(VerdictKeys, homework["status"]) then
      if "lesson_name" !in homework then Err(KeyError("lesson_name"))
      else Ok(Some(Message(Text(homework["lesson_name"], containerStr), homework["status"].s)))
    else Ok(None)
  }

  /** parse_status reads only the 'status' and 'lesson_name' entries: records
      that agree on those give the same result, whatever else they hold. */
  lemma ParseStatusReadsOnlyStatusAndLessonName(
    h1: map<string, Value>, h2: map<string, Value>, containerStr: Value -> string)
    requires ("status" in h1) == ("status" in h2)
    requires "status" in h1 ==> h1["status"] == h2["status"]
    requires ("lesson_name" in h1) == ("lesson_name" in h2)
    requires "lesson_name" in h1 ==> h1["lesson_name"] == h2["lesson_name"]
    ensures ParseStatus(h1, containerStr) == ParseStatus(h2, containerStr)
  {
  }

  /** For a status that is not a verdict key, 'lesson_name' is never read: the
      result is `None` whether it is absent or holds anything. */
  lemma UnknownStatusIgnoresLessonName(
    homework: map<string, Value>, name: Value, containerStr: Value -> string)
    requires "status" in homework && !IsVerdict(homework["status"])
    ensures ParseStatus(homework - {"lesson_name"}, containerStr) == Ok(None)
    ensures ParseStatus(homework["lesson_name" := name], containerStr) == Ok(None)
  {
  }

  /** A record that names its lesson under 'homework_name' rather than
      'lesson_name' fails with KeyError('lesson_name') for a verdict status. */
  lemma HomeworkNameIsNotRead(containerStr: Value -> string)
    ensures ParseStatus(map["homework_name" := Str("hw1"), "status" := Str("approved")], containerStr)
            == Err(KeyError("lesson_name"))
  {
  }

  /** An approved lesson gives the verdict text for 'approved', verbatim; an
      unknown status gives `None`, not an exception. */
  lemma ParseStatusExamples(containerStr: Value -> string)
    ensures ParseStatus(map["lesson_name" := Str("hw1"), "status" := Str("approved")], containerStr)
            == Ok(Some("Изменился статус проверки работы \"" + "hw1" + "\". "
                       + "Работа проверена: ревьюеру всё понравилось. Ура!"))
    ensures ParseStatus(map["lesson_name" := Str("hw2"), "status" := Str("weird")], containerStr) == Ok(None)
  {
  }

  // ---------------------------------------------------------------------------
  // Reading a notification back

  /** Recovers the lesson name text and the verdict key from a notification,
      trying the verdict keys in table order. */
  function ParseMessage(m: string): (r: Option<(string, string)>)
    ensures r.Some? ==> r.value.1 in Verdicts && m == Message(r.value.0, r.value.1)
  {
    if |m| < |Prefix| || m[..|Prefix|] != Prefix then None
    else MatchVerdict(m, VerdictKeys)
  }

  function MatchVerdict(m: string, keys: seq<string>): (r: Option<(string, string)>)
    requires |Prefix| <= |m| && m[..|Prefix|] == Prefix
    requires forall i :: 0 <= i < |keys| ==> keys[i] in Verdicts
    ensures r.Some? ==> r.value.1 in keys && m == Message(r.value.0, r.value.1)
  {
    if keys == [] then None
    else
      var tail := Separator + Verdicts[keys[0]];
      if |Prefix| + |tail| <= |m| && m[|m| - |tail|..] == tail then
        assert m == m[..|Prefix|] + m[|Prefix|..|m| - |tail|] + m[|m| - |tail|..];
        Some((m[|Prefix|..|m| - |tail|], keys[0]))
      else MatchVerdict(m, keys[1..])
  }

  /** No two verdicts end in the same two characters. */
  lemma VerdictEndingsDiffer(k1: string, k2: string)
    requires k1 in Verdicts && k2 in Verdicts && k1 != k2
    ensures |Verdicts[k1]| >= 2 && |Verdicts[k2]| >= 2
    ensures Verdicts[k1][|Verdicts[k1]| - 1] != Verdicts[k2][|Verdicts[k2]| - 1]
         || Verdicts[k1][|Verdicts[k1]| - 2] != Verdicts[k2][|Verdicts[k2]| - 2]
  {
  }

  /** A sequence ending in `t` has the last two characters of `t`. */
  lemma EndsWith(m: string, u: string, t: string)
    requires m == u + t && |t| >= 2
    ensures m[|m| - 1] == t[|t| - 1] && m[|m| - 2] == t[|t| - 2]
  {
  }

  /** The tail of a notification is the separator and its own verdict. */
  lemma OwnTailMatches(name: string, key: string)
    requires key in Verdicts
    ensures |Prefix| <= |Message(name, key)| && Message(name, key)[..|Prefix|] == Prefix
    ensures var m, tail := Message(name, key), Separator + Verdicts[key];
            |Prefix| + |tail| <= |m| && m[|m| - |tail|..] == tail && m[|Prefix|..|m| - |tail|] == name
  {
    var m, tail := Message(name, key), Separator + Verdicts[key];
    assert m == Prefix + name + tail;
  }

  /** The separator followed by any other verdict is not a tail of a
      notification. */
  lemma OtherTailDiffers(name: string, key: string, other: string)
    requires key in Verdicts && other in Verdicts && key != other
    ensures var m, tail := Message(name, key), Separator + Verdicts[other];
            !(|tail| <= |m| && m[|m| - |tail|..] == tail)
  {
    var m, tail := Message(name, key), Separator + Verdicts[other];
    VerdictEndingsDiffer(key, other);
    EndsWith(m, Prefix + name + Separator, Verdicts[key]);
    if |tail| <= |m| && m[|m| - |tail|..] == tail {
      EndsWith(m, m[..|m| - |tail|] + Separator, Verdicts[other]);
      assert false;
    }
  }

  /** Scanning keys that include the notification's own verdict key finds
      exactly that key and the lesson name. */
  lemma {:induction false} MatchVerdictFinds(name: string, key: string, keys: seq<string>)
    requires key in Verdicts && key in keys
    requires forall i :: 0 <= i < |keys| ==> keys[i] in Verdicts
    ensures |Prefix| <= |Message(name, key)| && Message(name, key)[..|Prefix|] == Prefix
    ensures MatchVerdict(Message(name, key), keys) == Some((name, key))
  {
    OwnTailMatches(name, key);
    if keys[0] != key {
      OtherTailDiffers(name, key, keys[0]);
      MatchVerdictFinds(name, key, keys[1..]);
    }
  }

  /** Reading a notification back gives the lesson name text and the verdict
      key it was made from: distinct (name, status) pairs give distinct
      notifications. */
  lemma MessageRoundTrip(name: string, key: string)
    requires key in Verdicts
    ensures ParseMessage(Message(name, key)) == Some((name, key))
  {
    MatchVerdictFinds(name, key, VerdictKeys);
  }

  /** The notification parse_status produces reads back as the record's
      lesson name and status. */
  lemma ParseStatusReadsBack(homework: map<string, Value>, containerStr: Value -> string, m: string)
    requires ParseStatus(homework, containerStr) == Ok(Some(m))
    ensures "status" in homework && "lesson_name" in homework
    ensures ParseMessage(m) == Some((Text(homework["lesson_name"], containerStr), homework["status"].s))
  {
    MessageRoundTrip(Text(homework["lesson_name"], containerStr), homework["status"].s);
  }
}

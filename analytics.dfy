/** The post-processing of `detect_follow_up` and `generate_analytics`: the
    coercion of the `follow_up` field to a boolean, and the defaults and
    upper-casing applied to `country` and `intent_level`. */
module Analytics {
  import opened Text
  import opened JsonValue

  /** `detect_follow_up` after the call to the language model: `reply` is the
      decoded reply object, `None` when the call or the decoding raised. A
      string is true when its lower-case form is "true", "yes" or "1"; any
      other value is converted by its truthiness. */
  function FollowUp(reply: Option<Reply>): (r: bool)
    ensures reply.None? ==> !r
    ensures reply.Some? && "follow_up" !in reply.value ==> !r
    ensures reply.Some? && "follow_up" in reply.value && reply.value["follow_up"].JBool? ==>
      r == reply.value["follow_up"].b
  {
    match reply
    case None => false
    case Some(result) =>
      match Get(result, "follow_up", JBool(false))
      case JStr(s) => LowerStr(s) in ["true", "yes", "1"]
      case v => Truthy(v)
  }

  /** A string answer is read without regard to case. */
  lemma FollowUpIgnoresCase(result: Reply, s: string)
    ensures FollowUp(Some(result["follow_up" := JStr(s)]))
         == FollowUp(Some(result["follow_up" := JStr(LowerStr(s))]))
  {
    assert LowerStr(LowerStr(s)) == LowerStr(s);
  }

  /** The affirmative strings, in any case, give true. */
  lemma FollowUpAffirmative(result: Reply, s: string)
    requires LowerStr(s) in ["true", "yes", "1"]
    ensures FollowUp(Some(result["follow_up" := JStr(s)]))
  {
  }

  /** Unlike `bool()`, the string "false" (and any other non-empty string that
      is not affirmative) gives false. */
  lemma FollowUpOtherString(result: Reply, s: string)
    requires LowerStr(s) !in ["true", "yes", "1"]
    ensures !FollowUp(Some(result["follow_up" := JStr(s)]))
  {
  }

  /** A non-string value is converted by its truthiness. */
  lemma FollowUpNonString(result: Reply, v: Json)
    requires !v.JStr?
    ensures FollowUp(Some(result["follow_up" := v])) == Truthy(v)
  {
  }

  /** `analytics_data.get("country") or ""` */
  function Country(data: Reply): (r: Json)
    ensures "country" in data && Truthy(data["country"]) ==> r == data["country"]
    ensures !("country" in data && Truthy(data["country"])) ==> r == JStr("")
  {
    var country := Get(data, "country", JNull);
    if Truthy(country) then country else JStr("")
  }

  /** `analytics_data.get("intent_level") or "TOFU"`, upper-cased when it is
      a string and "TOFU" otherwise. The value is not checked against the
      three funnel stages. */
  function IntentLevel(data: Reply): (r: string)
    ensures r != [] && NoLower(r)
    ensures "intent_level" in data && data["intent_level"].JStr? && data["intent_level"].s != [] ==>
      r == UpperStr(data["intent_level"].s)
    ensures !("intent_level" in data && data["intent_level"].JStr? && data["intent_level"].s != []) ==>
      r == "TOFU"
  {
    var level := Get(data, "intent_level", JNull);
    var level' := if Truthy(level) then level else JStr("TOFU");
    assert NoLower("TOFU") by { assert "TOFU"[1] == 'O'; }
    match level'
    case JStr(s) => UpperStr(s)
    case _ => "TOFU"
  }

  /** Upper-casing is idempotent, so a stored level read back comes out
      unchanged. */
  lemma IntentLevelIdempotent(data: Reply)
    ensures IntentLevel(map["intent_level" := JStr(IntentLevel(data))]) == IntentLevel(data)
  {
    var r := IntentLevel(data);
    assert UpperStr(r) == r;
  }

  /** Any string is accepted as a level, in upper case: "warm" gives "WARM". */
  lemma IntentLevelAnyString()
    ensures IntentLevel(map["intent_level" := JStr("warm")]) == "WARM"
  {
    assert UpperStr("warm") == "WARM";
  }

  /** The analytics document minus its user id. */
  datatype AnalyticsDoc = AnalyticsDoc(country: Json, intentLevel: string, followUp: bool)

  /** `generate_analytics` after the calls to the language model: `reply` is
      its decoded analytics reply and `followUpReply` the reply that
      `detect_follow_up` gets; `None` when the analytics reply could not be
      obtained or decoded. */
  function GenerateAnalytics(reply: Option<Reply>, followUpReply: Option<Reply>): (r: Option<AnalyticsDoc>)
    ensures r.Some? <==> reply.Some?
    ensures r.Some? ==> r.value.intentLevel != [] && NoLower(r.value.intentLevel)
    ensures r.Some? ==> r.value.country == Country(reply.value)
    ensures r.Some? ==> r.value.intentLevel == IntentLevel(reply.value)
    ensures r.Some? ==> r.value.followUp == FollowUp(followUpReply)
    ensures r.Some? ==> Truthy(r.value.country) || r.value.country == JStr("")
  {
    match reply
    case None => None
    case Some(data) => Some(AnalyticsDoc(Country(data), IntentLevel(data), FollowUp(followUpReply)))
  }
}

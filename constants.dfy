/** The static data of the client: the pool of prompts a new holder is given
    and the seed history of keychain "0". */
module Constants {
  import opened Common
  import opened Events

  datatype Prompt = Prompt(key: string, text: string)

  /** `PROMPT_POOL`, in its order. */
  const PromptPool: seq<Prompt> := [
    Prompt("MOST_WORRIED", "最擔心嘅人"),
    Prompt("MOST_COMFORTABLE", "相處最舒服嘅人"),
    Prompt("FAVORITE_PERSON", "最喜歡嘅人"),
    Prompt("MOST_BLESSED", "最想祝福嘅人"),
    Prompt("MOST_TRUSTED", "最信任嘅人"),
    Prompt("MOST_GRATEFUL", "最想多謝嘅人"),
    Prompt("NEEDS_HUG", "最需要被安慰嘅人"),
    Prompt("SECRET_ADMIRER", "一直默默留意嘅人"),
    Prompt("MADE_YOU_LAUGH", "最近令你大笑嘅人"),
    Prompt("LONG_TIME_NO_SEE", "好耐無見嘅舊朋友"),
    Prompt("HARD_WORKING", "最近好努力加油緊嘅人"),
    Prompt("KIND_STRANGER", "對你好好嘅陌生人"),
    Prompt("CRAZY_FRIEND", "性格最瘋狂但最真誠嘅朋友"),
    Prompt("INSPIRE_YOU", "帶畀你啟發或者動力嘅人"),
    Prompt("FOODIE_PARTNER", "最想同佢一齊去食好嘢嘅人")
  ]

  /** The prompt keys the event builder uses outside the pool. */
  const StartKey: string := "START"
  const UnknownKey: string := "UNKNOWN"

  /** The text of the first pool entry with the given key. */
  function PromptText(key: string): (t: Option<string>)
    ensures t.Some? ==> Prompt(key, t.value) in PromptPool
    ensures t.None? ==> forall i :: 0 <= i < |PromptPool| ==> PromptPool[i].key != key
  {
    FindText(PromptPool, key)
  }

  function FindText(pool: seq<Prompt>, key: string): (t: Option<string>)
    ensures t.Some? ==> Prompt(key, t.value) in pool
    ensures t.None? ==> forall i :: 0 <= i < |pool| ==> pool[i].key != key
  {
    if pool == [] then None
    else if pool[0].key == key then Some(pool[0].text)
    else FindText(pool[1..], key)
  }

  /** What the builder relies on: pairwise different keys, none of them a
      sentinel key, and no empty key or text. */
  predicate WellFormedPool(pool: seq<Prompt>) {
    && DistinctKeys(pool)
    && (forall i :: 0 <= i < |pool| ==> WellFormedEntry(pool[i]))
  }

  predicate DistinctKeys(pool: seq<Prompt>) {
    forall i, j :: 0 <= i < j < |pool| ==> pool[i].key != pool[j].key
  }

  predicate WellFormedEntry(p: Prompt) {
    p.key != "" && p.text != "" && p.key != StartKey && p.key != UnknownKey
  }

  lemma PromptPoolWellFormed()
    ensures |PromptPool| == 15
    ensures WellFormedPool(PromptPool)
  {
    PromptPoolKeysDistinct();
    PromptPoolEntriesWellFormed();
  }

  lemma PromptPoolKeysDistinct()
    ensures DistinctKeys(PromptPool)
  {
    forall i, j | 0 <= i < j < |PromptPool|
      ensures PromptPool[i].key != PromptPool[j].key
    {
      var a, b := PromptPool[i].key, PromptPool[j].key;
      if |a| == |b| {
        // keys of the same length differ in their first or sixth letter
        assert a[0] != b[0] || a[5] != b[5];
      }
    }
  }

  lemma PromptPoolEntriesWellFormed()
    ensures forall i :: 0 <= i < |PromptPool| ==> WellFormedEntry(PromptPool[i])
  {
  }

  /** With distinct keys, looking a pool key up gives back its own text. */
  lemma {:induction false} FindTextOfEntry(pool: seq<Prompt>, i: int)
    requires WellFormedPool(pool) && 0 <= i < |pool|
    ensures FindText(pool, pool[i].key) == Some(pool[i].text)
  {
    if i > 0 {
      assert pool[0].key != pool[i].key;
      assert pool[1..][i - 1] == pool[i];
      FindTextOfEntry(pool[1..], i - 1);
    }
  }

  lemma PromptTextOfEntry(p: Prompt)
    requires p in PromptPool
    ensures PromptText(p.key) == Some(p.text)
  {
    PromptPoolWellFormed();
    var i :| 0 <= i < |PromptPool| && PromptPool[i] == p;
    FindTextOfEntry(PromptPool, i);
  }

  /** `INITIAL_HISTORY_SEED`; `now` is `Date.now()` when the module loads. */
  function InitialHistorySeed(now: int): (seed: seq<HistoryEvent>)
    ensures |seed| == 1
  {
    [HistoryEvent("seed-1", Str("0"), now - 10000000, "大象女士", "阿明", StartKey, "開始旅程",
                  Some("MOST_WORRIED"), Some("最擔心嘅人"))]
  }

  /** The seed's next prompt is an entry of the pool, text and all. */
  lemma SeedPromptInPool(now: int)
    ensures var e := InitialHistorySeed(now)[0];
            && e.nextPromptKey.Some? && e.nextPromptText.Some?
            && PromptText(e.nextPromptKey.value) == e.nextPromptText
            && Prompt(e.nextPromptKey.value, e.nextPromptText.value) == PromptPool[0]
  {
    PromptTextOfEntry(PromptPool[0]);
  }
}

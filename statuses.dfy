/** The catalog of review statuses and the text the bot shows for each. */
module Statuses {

  const HOMEWORK_STATUSES: map<string, string> := map[
    "approved" := "Работа проверена: ревьюеру всё понравилось. Ура!",
    "reviewing" := "Работа взята на проверку ревьюером.",
    "rejected" := "Работа проверена, в ней нашлись ошибки."
  ]

  /** The three statuses, in the order the catalog lists them. */
  const STATUS_KEYS: seq<string> := ["approved", "reviewing", "rejected"]

  /** The catalog has exactly three entries, keyed by the listed statuses, with pairwise different texts. */
  lemma CatalogIsFixed()
    ensures HOMEWORK_STATUSES.Keys == set k | k in STATUS_KEYS
    ensures |HOMEWORK_STATUSES| == |STATUS_KEYS| == 3
    ensures forall a, b | a in HOMEWORK_STATUSES && b in HOMEWORK_STATUSES && a != b ::
      HOMEWORK_STATUSES[a] != HOMEWORK_STATUSES[b]
  {
    var approved, reviewing, rejected :=
      HOMEWORK_STATUSES["approved"], HOMEWORK_STATUSES["reviewing"], HOMEWORK_STATUSES["rejected"];
    assert |approved| == 48 && |reviewing| == 35 && |rejected| == 39;
    assert HOMEWORK_STATUSES.Keys == {"approved", "reviewing", "rejected"};
  }
}

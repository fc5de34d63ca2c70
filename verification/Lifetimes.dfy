/** How long a stored memory lives, by its tags. */
module Lifetimes {
  import opened Wrappers
  import opened Tags

  /** The lifetime of a memory without a stated one, by its tags. */
  lemma LifetimeIs(tags: set<Tag>, days: nat)
    requires IsTTL(None, tags, days)
    ensures var weekly, monthly := "api" in tags || "endpoint" in tags, "library" in tags || "framework" in tags;
            var quarterly, lasting := "language-feature" in tags, "architecture" in tags || "pattern" in tags;
            days == if "verified" !in tags then 0
                    else if weekly then 7
                    else if monthly then 30
                    else if quarterly then 90
                    else if lasting then 180
                    else 30
  {
    TopicLives();
    assert forall t :: AutoTTL(t) > 0 ==> t in TOPICS;
  }

  const TOPICS: set<Tag> := {"api", "endpoint", "library", "framework", "language-feature", "architecture", "pattern"}

  lemma TopicLives()
    ensures AutoTTL("api") == AutoTTL("endpoint") == 7 && AutoTTL("library") == AutoTTL("framework") == 30
    ensures AutoTTL("language-feature") == 90 && AutoTTL("architecture") == AutoTTL("pattern") == 180
    ensures forall t :: t !in TOPICS ==> AutoTTL(t) == 0
  {
  }

  /** A stated lifetime counts before all that. */
  lemma StatedLifetimeIs(stated: int, tags: set<Tag>, days: nat)
    requires IsTTL(Some(stated), tags, days)
    ensures stated > 0 ==> days == stated
    ensures stated <= 0 ==> IsTTL(None, tags, days)
  {
  }
}

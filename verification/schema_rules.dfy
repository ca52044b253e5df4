/** The closed classification of child tag names that drives how a Schema folds its
    children: five name sets, and the rule each child falls under. */
module SchemaRules {

  /** Children stored as a `$name` property holding their value. */
  const KeyValue: set<string> := {
    "adsystem", "adtitle", "description", "survey", "error", "impression",
    "vastadtaguri", "duration", "iframeresource", "htmlresource", "staticresource",
    "companionclickthrough", "alttext", "adparameters"
  }

  /** Key/value children that may repeat and are collected into a list. */
  const KeyValueMany: set<string> := {"impression", "error"}

  /** Children whose list of sub-schemas is stored under `$name`. */
  const Collection: set<string> := {"extensions", "creatives", "trackingevents", "mediafiles", "videoclicks"}

  /** Children merged into their parent, which takes their name as `$type`. */
  const ExtendDirect: set<string> := {"inline", "wrapper", "linear"}

  /** Children whose raw value the parent keeps as `$list`, taking their name as `$type`. */
  const ExtendCollection: set<string> := {"companionads", "nonlinearads"}

  /** What the fold does with one child. */
  datatype Rule = AsKeyValue | AsExtendDirect | AsExtendCollection | AsChild

  /** The rule for a child named `name`, checked in the order the fold checks them. */
  function Classify(name: string): (r: Rule)
    ensures r == AsKeyValue <==> name in KeyValue || name in Collection
    ensures r == AsExtendDirect <==> name in ExtendDirect
    ensures r == AsExtendCollection <==> name in ExtendCollection
    ensures r == AsChild <==> name !in KeyValue + Collection + ExtendDirect + ExtendCollection
  {
    if name in KeyValue || name in Collection then AsKeyValue
    else if name in ExtendDirect then AsExtendDirect
    else if name in ExtendCollection then AsExtendCollection
    else AsChild
  }

  /** Every repeatable name is also a key/value name. */
  lemma {:induction false} ManyAreKeyValue()
    ensures KeyValueMany <= KeyValue
  {
  }

  /** The four sets the fold dispatches on are pairwise disjoint, so the order in which the
      fold tests them does not matter. */
  lemma {:induction false} SetsDisjoint()
    ensures KeyValue !! Collection && KeyValue !! ExtendDirect && KeyValue !! ExtendCollection
    ensures Collection !! ExtendDirect && Collection !! ExtendCollection
    ensures ExtendDirect !! ExtendCollection
  {
  }
}

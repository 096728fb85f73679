/** The list last shown to the user: the shared registry, and the Home's own copy of its lists. */
module PresentedSets {
  import opened Common

  type ConversationId = string
  type Owner = string

  const HOME: Owner := "home_information"

  datatype Context = Context(owner: Owner, kind: string, items: seq<string>, presentation: Option<string>)

  /** A list that the Home presented; its items are numbered as shown. */
  datatype PresentedSet = PresentedSet(items: seq<string>, source: string)

  datatype Reference = Ordinal(n: int) | ExactLabel(text: string) | Demonstrative | ContextualClass

  datatype Resolution = Resolved(item: string) | NoContext | ClarificationRequired

  /** The items whose label is the one asked for. */
  function Labelled(items: seq<string>, text: string, labelOf: string -> string): (r: seq<string>)
    ensures forall x :: x in r <==> x in items && labelOf(x) == text
  {
    if items == [] then []
    else
      var front, last := Labelled(items[..|items| - 1], text, labelOf), items[|items| - 1];
      assert items == items[..|items| - 1] + [last];
      if labelOf(last) == text then front + [last] else front
  }

  /** Exactly one item, at place `i`, has this label. */
  predicate OnlyLabelled(items: seq<string>, text: string, labelOf: string -> string, i: int) {
    0 <= i < |items| && forall j | 0 <= j < |items| :: labelOf(items[j]) == text <==> j == i
  }

  lemma {:induction false} LabelledOnce(items: seq<string>, text: string, labelOf: string -> string)
    ensures |Labelled(items, text, labelOf)| == 1 <==> exists i :: OnlyLabelled(items, text, labelOf, i)
    ensures forall i | OnlyLabelled(items, text, labelOf, i) :: Labelled(items, text, labelOf) == [items[i]]
  {
    if items != [] {
      var front, last := items[..|items| - 1], items[|items| - 1];
      LabelledOnce(front, text, labelOf);
      var found := Labelled(front, text, labelOf);
      assert items == front + [last];
      if labelOf(last) != text {
        forall i
          ensures OnlyLabelled(front, text, labelOf, i) <==> OnlyLabelled(items, text, labelOf, i)
        {
          assert 0 <= i < |front| ==> front[i] == items[i];
        }
      } else if found == [] {
        assert forall j | 0 <= j < |front| :: items[j] in front;
        assert OnlyLabelled(items, text, labelOf, |front|);
      } else {
        assert found[0] in found;
        var j :| 0 <= j < |front| && front[j] == found[0];
        assert labelOf(items[j]) == text && labelOf(items[|front|]) == text;
      }
    }
  }

  lemma WhatIsLabelled(items: seq<string>, text: string, labelOf: string -> string)
    ensures var found := Labelled(items, text, labelOf);
      if |found| == 1 then
        exists i ::
          && 0 <= i < |items| && found == [items[i]]
          && forall j | 0 <= j < |items| :: labelOf(items[j]) == text <==> j == i
      else
        || (forall x | x in items :: labelOf(x) != text)
        || exists i, j | 0 <= i < j < |items| :: labelOf(items[i]) == text && labelOf(items[j]) == text
  {
    LabelledOnce(items, text, labelOf);
    var found := Labelled(items, text, labelOf);
    if |found| == 1 {
      var i :| OnlyLabelled(items, text, labelOf, i);
    } else if found != [] {
      assert found[0] in found;
      var i :| 0 <= i < |items| && items[i] == found[0];
      assert !OnlyLabelled(items, text, labelOf, i);
    }
  }

  class PresentedReadSetRegistry {
    var rows: map<ConversationId, Context>

    constructor ()
      ensures rows == map[]
    {
      rows := map[];
    }

    method Present(c: ConversationId, owner: Owner, items: seq<string>, kind: string, presentation: Option<string>)
      modifies this
      ensures rows == old(rows)[c := Context(owner, kind, items, presentation)]
    {
      rows := rows[c := Context(owner, kind, items, presentation)];
    }

    method PresentHomeEntities(c: ConversationId, s: PresentedSet)
      modifies this
      ensures rows == old(rows)[c := Context(HOME, "mixed", s.items, Some(s.source))]
    {
      rows := rows[c := Context(HOME, "mixed", s.items, Some(s.source))];
    }

    /** Forgets the conversation's list, or only a list of the named owner. */
    method Discard(c: ConversationId, owner: Option<Owner>)
      modifies this
      ensures rows == if c in old(rows) && (owner.None? || old(rows)[c].owner == owner.value) then old(rows) - {c}
        else old(rows)
    {
      if c in rows && (owner.None? || rows[c].owner == owner.value) {
        rows := rows - {c};
      }
    }

    /**
      * A reference means an item only within the current list of that owner and kind, and only when it is the one item.
      */
    method Resolve(c: ConversationId, owner: Owner, kind: string, ref: Reference, labelOf: string -> string,
      required: Option<string>)
      returns (r: Resolution)
      ensures r == NoContext <==>
        c !in rows || rows[c].owner != owner || rows[c].kind != kind
        || (required.Some? && rows[c].presentation != required)
      ensures r.Resolved? ==> r.item in rows[c].items
      ensures r.Resolved? && ref.Ordinal? ==> 1 <= ref.n <= |rows[c].items| && r.item == rows[c].items[ref.n - 1]
      ensures r.Resolved? && ref.ExactLabel? ==>
        exists i ::
          && 0 <= i < |rows[c].items| && r.item == rows[c].items[i]
          && forall j | 0 <= j < |rows[c].items| :: labelOf(rows[c].items[j]) == ref.text <==> j == i
      ensures r == ClarificationRequired && ref.ExactLabel? ==>
        || (forall x | x in rows[c].items :: labelOf(x) != ref.text)
        || exists i, j | 0 <= i < j < |rows[c].items| ::
             labelOf(rows[c].items[i]) == ref.text && labelOf(rows[c].items[j]) == ref.text
      ensures r.Resolved? && (ref.Demonstrative? || ref.ContextualClass?) ==> rows[c].items == [r.item]
      ensures r == ClarificationRequired && ref.Ordinal? ==> ref.n < 1 || |rows[c].items| < ref.n
      ensures r == ClarificationRequired && (ref.Demonstrative? || ref.ContextualClass?) ==> |rows[c].items| != 1
    {
      if c !in rows {
        return NoContext;
      }
      var context := rows[c];
      if context.owner != owner || context.kind != kind || (required.Some? && context.presentation != required) {
        return NoContext;
      }
      match ref
      case Ordinal(n) =>
        return if 0 <= n - 1 < |context.items| then Resolved(context.items[n - 1]) else ClarificationRequired;
      case ExactLabel(text) =>
        var matches := Labelled(context.items, text, labelOf);
        WhatIsLabelled(context.items, text, labelOf);
        hide Labelled;
        return if |matches| == 1 then Resolved(matches[0]) else ClarificationRequired;
      case _ =>
        assert |context.items| == 1 ==> context.items == [context.items[0]];
        return if |context.items| == 1 then Resolved(context.items[0]) else ClarificationRequired;
    }
  }

  class HomePresentation {
    const registry: PresentedReadSetRegistry
    var sets: map<ConversationId, PresentedSet>

    /** Where both copies name a Home list, they name the same one. */
    predicate Agree()
      reads this, registry
    {
      forall c | c in registry.rows && registry.rows[c].owner == HOME && c in sets ::
        registry.rows[c].items == sets[c].items && registry.rows[c].presentation == Some(sets[c].source)
    }

    constructor (registry: PresentedReadSetRegistry)
      ensures Agree() && this.registry == registry && sets == map[]
    {
      this.registry := registry;
      sets := map[];
    }

    method Remember(c: ConversationId, s: PresentedSet)
      requires Agree()
      modifies this, registry
      ensures Agree() && sets == old(sets)[c := s]
      ensures registry.rows == old(registry.rows)[c := Context(HOME, "mixed", s.items, Some(s.source))]
    {
      sets := sets[c := s];
      registry.PresentHomeEntities(c, s);
    }

    /** Both copies are dropped, unless the registry already holds another owner's list. */
    method Discard(c: ConversationId)
      requires Agree()
      modifies this, registry
      ensures Agree() && sets == old(sets) - {c}
      ensures forall d | d != c :: d in registry.rows <==> d in old(registry.rows)
      ensures forall d | d in registry.rows :: d in old(registry.rows) && registry.rows[d] == old(registry.rows)[d]
      ensures c in registry.rows ==> registry.rows[c].owner != HOME
    {
      sets := sets - {c};
      registry.Discard(c, Some(HOME));
    }

    /** Only the Home's copy is dropped, as an unsuccessful listing does. */
    method Forget(c: ConversationId)
      requires Agree()
      modifies this
      ensures Agree() && sets == old(sets) - {c}
    {
      sets := sets - {c};
    }

    /** A connector shows its own list; connectors never use the Home's name. */
    method ConnectorPresents(c: ConversationId, owner: Owner, items: seq<string>, kind: string,
      presentation: Option<string>)
      requires Agree() && owner != HOME
      modifies registry
      ensures Agree() && registry.rows == old(registry.rows)[c := Context(owner, kind, items, presentation)]
    {
      registry.Present(c, owner, items, kind, presentation);
    }

    method RegistryDiscards(c: ConversationId, owner: Option<Owner>)
      requires Agree()
      modifies registry
      ensures Agree()
      ensures forall d | d in registry.rows :: d in old(registry.rows) && registry.rows[d] == old(registry.rows)[d]
    {
      registry.Discard(c, owner);
    }

    /** The Home's list, when it is still the last one shown: exactly what the registry holds. */
    method Current(c: ConversationId) returns (s: Option<PresentedSet>)
      requires Agree()
      ensures s.Some? <==> c in registry.rows && registry.rows[c].owner == HOME && c in sets
      ensures s.Some? ==>
        s.value == sets[c] && s.value.items == registry.rows[c].items
          && registry.rows[c].presentation == Some(s.value.source)
    {
      if c !in registry.rows || registry.rows[c].owner != HOME {
        return None;
      }
      s := if c in sets then Some(sets[c]) else None;
    }
  }
}

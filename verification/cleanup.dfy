/**
  The storage-level duplicate rule shared by the service worker's periodic
  clean-up (background.js `removeDuplicates`) and the options page's
  "clean duplicates" button (options.js `cleanDuplicates`):

    keep element i iff i === self.findIndex(x => x.url === el.url || x.id === el.id)

  that is, iff no earlier element shares its url or its id.  The relation
  "shares a url or an id" is not transitive, so this is not deduplication by
  a key: an element can be dropped because it matches one that is itself
  dropped.
 */
module Cleanup {
  import opened Text
  import opened Records
  import Dedup

  /** Two GPTs are the same record when they share a url or an id. */
  predicate SameGpt(a: Gpt, b: Gpt) {
    a.url == b.url || a.id == b.id
  }

  predicate SameConversation(a: Conversation, b: Conversation) {
    a.url == b.url || a.id == b.id
  }

  /** The GPT filter of both clean-ups. */
  function UniqueGpts(gpts: seq<Gpt>): (r: seq<Gpt>)
    ensures |r| <= |gpts|
    ensures forall k :: 0 <= k < |r| ==> r[k] in gpts
    ensures |gpts| > 0 ==> |r| > 0 && r[0] == gpts[0]
    ensures forall a, b :: 0 <= a < b < |r| ==> r[a].url != r[b].url && r[a].id != r[b].id
  {
    var r := Dedup.KeepFirst(gpts, SameGpt);
    Dedup.KeepFirstProperties(gpts, SameGpt);
    assert forall a, b :: 0 <= a < b < |r| ==> !SameGpt(r[a], r[b]);
    r
  }

  /** The conversation filter of both clean-ups. */
  function UniqueConversations(convs: seq<Conversation>): (r: seq<Conversation>)
    ensures |r| <= |convs|
    ensures forall k :: 0 <= k < |r| ==> r[k] in convs
    ensures |convs| > 0 ==> |r| > 0 && r[0] == convs[0]
    ensures forall a, b :: 0 <= a < b < |r| ==> r[a].url != r[b].url && r[a].id != r[b].id
  {
    var r := Dedup.KeepFirst(convs, SameConversation);
    Dedup.KeepFirstProperties(convs, SameConversation);
    assert forall a, b :: 0 <= a < b < |r| ==> !SameConversation(r[a], r[b]);
    r
  }

  /** The filter keeps exactly the positions the source's `findIndex` test
      keeps: `i === findIndex(...)` iff nothing earlier shares url or id. */
  lemma UniqueGptsIsFindIndexFilter(gpts: seq<Gpt>, i: int)
    requires 0 <= i < |gpts|
    ensures Dedup.FindIndex(gpts, Dedup.SameAs(SameGpt, gpts[i])) == i
        <==> (forall j :: 0 <= j < i ==> gpts[j].url != gpts[i].url && gpts[j].id != gpts[i].id)
    ensures Dedup.FindIndex(gpts, Dedup.SameAs(SameGpt, gpts[i])) == i
        <==> i in Dedup.KeptIndices(gpts, SameGpt)
    ensures Dedup.FindIndex(gpts, Dedup.SameAs(SameGpt, gpts[i])) == i ==> gpts[i] in UniqueGpts(gpts)
  {
    Dedup.FindIndexAgrees(gpts, i, SameGpt);
    var ix := Dedup.KeptIndices(gpts, SameGpt);
    if i in ix {
      KeptGptIsListed(gpts, i);
    }
  }

  /** A kept position's GPT is in the cleaned list. */
  lemma KeptGptIsListed(gpts: seq<Gpt>, i: int)
    requires i in Dedup.KeptIndices(gpts, SameGpt)
    ensures 0 <= i < |gpts| && gpts[i] in UniqueGpts(gpts)
    ensures 0 <= i < |gpts| && Dedup.FirstOfItsKind(gpts, i, SameGpt)
  {
    var ix := Dedup.KeptIndices(gpts, SameGpt);
    var k :| 0 <= k < |ix| && ix[k] == i;
    assert UniqueGpts(gpts)[k] == gpts[i];
  }

  lemma UniqueConversationsIsFindIndexFilter(convs: seq<Conversation>, i: int)
    requires 0 <= i < |convs|
    ensures Dedup.FindIndex(convs, Dedup.SameAs(SameConversation, convs[i])) == i
        <==> (forall j :: 0 <= j < i ==> convs[j].url != convs[i].url && convs[j].id != convs[i].id)
  {
    Dedup.FindIndexAgrees(convs, i, SameConversation);
  }

  /** Cleaning twice is cleaning once; a list is left alone iff it has no
      two records sharing a url or an id. */
  lemma UniqueGptsIdempotent(gpts: seq<Gpt>)
    ensures UniqueGpts(UniqueGpts(gpts)) == UniqueGpts(gpts)
    ensures UniqueGpts(gpts) == gpts <==>
      forall a, b :: 0 <= a < b < |gpts| ==> gpts[a].url != gpts[b].url && gpts[a].id != gpts[b].id
  {
    Dedup.KeepFirstIdempotent(gpts, SameGpt);
    Dedup.KeepFirstFixpoint(gpts, SameGpt);
    assert Dedup.PairwiseDistinct(gpts, SameGpt) <==>
      forall a, b :: 0 <= a < b < |gpts| ==> gpts[a].url != gpts[b].url && gpts[a].id != gpts[b].id;
  }

  /** The same two facts for conversations. */
  lemma UniqueConversationsIdempotent(convs: seq<Conversation>)
    ensures UniqueConversations(UniqueConversations(convs)) == UniqueConversations(convs)
    ensures UniqueConversations(convs) == convs <==>
      forall a, b :: 0 <= a < b < |convs| ==> convs[a].url != convs[b].url && convs[a].id != convs[b].id
  {
    Dedup.KeepFirstIdempotent(convs, SameConversation);
    Dedup.KeepFirstFixpoint(convs, SameConversation);
    assert Dedup.PairwiseDistinct(convs, SameConversation) <==>
      forall a, b :: 0 <= a < b < |convs| ==> convs[a].url != convs[b].url && convs[a].id != convs[b].id;
  }

  /** Unchanged length means unchanged list, so comparing lengths is a sound
      test for "something was removed". */
  lemma SameLengthMeansNothingRemoved(gpts: seq<Gpt>, convs: seq<Conversation>)
    ensures |UniqueGpts(gpts)| == |gpts| <==> UniqueGpts(gpts) == gpts
    ensures |UniqueConversations(convs)| == |convs| <==> UniqueConversations(convs) == convs
  {
    Dedup.SameLengthMeansUnchanged(gpts, SameGpt);
    Dedup.SameLengthMeansUnchanged(convs, SameConversation);
  }

  /** The relation is not transitive: with A and B sharing an id and B and C
      sharing a url, both B and C go, although C shares nothing with the one
      record that stays. */
  lemma DroppedThroughDroppedRecord(a: Gpt, b: Gpt, c: Gpt)
    requires a.id == b.id && a.url != b.url
    requires b.url == c.url && b.id != c.id
    requires a.url != c.url && a.id != c.id
    ensures UniqueGpts([a, b, c]) == [a]
    ensures !SameGpt(a, c)
  {
    var xs := [a, b, c];
    assert xs[..2] == [a, b] && xs[..1] == [a] && xs[..0] == [];
    assert Dedup.FirstOfItsKind(xs[..1], 0, SameGpt);
    assert !Dedup.FirstOfItsKind(xs[..2], 1, SameGpt) by {
      assert SameGpt(xs[0], xs[1]);
    }
    assert !Dedup.FirstOfItsKind(xs, 2, SameGpt) by {
      assert SameGpt(xs[1], xs[2]);
    }
    assert Dedup.KeepFirst(xs[..1], SameGpt) == [a];
    assert Dedup.KeepFirst(xs[..2], SameGpt) == [a];
  }
}

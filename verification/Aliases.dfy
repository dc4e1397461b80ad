/** The server's alias cache: agent template texts that were mapped to a template before skip
    matching and are counted by id. */
module Aliases {
  import opened Numbers
  import opened Templates
  import opened Clusters
  import opened Drain

  /** An alias names an id that was handed out, and while that id is live its template covers the
      text position by position. */
  ghost predicate Sound(fields: string -> seq<Token>, al: map<string, Id>, nextID: int, cs: map<Id, Cluster>, text: string) {
    text in al ==> al[text] <= nextID && (al[text] in cs ==> Covers(cs[al[text]].Tokens, fields(text)))
  }

  ghost predicate AllSound(fields: string -> seq<Token>, al: map<string, Id>, nextID: int, cs: map<Id, Cluster>) {
    forall text {:trigger Sound(fields, al, nextID, cs, text)} :: Sound(fields, al, nextID, cs, text)
  }

  lemma AfterCreate(fields: string -> seq<Token>, al: map<string, Id>, nextID: int, cs: map<Id, Cluster>, cs': map<Id, Cluster>)
    requires AllSound(fields, al, nextID, cs)
    requires forall c :: c in cs' && c != nextID + 1 ==> c in cs && SameTemplate(cs'[c], cs[c])
    ensures AllSound(fields, al, nextID + 1, cs')
  {
    var next := nextID + 1;
    forall text ensures Sound(fields, al, next, cs', text) {
      assert Sound(fields, al, nextID, cs, text);
    }
  }

  lemma AfterMerge(fields: string -> seq<Token>, al: map<string, Id>, nextID: int, cs: map<Id, Cluster>, cs': map<Id, Cluster>,
                   id: Id, toks: seq<Token>, n: int)
    requires AllSound(fields, al, nextID, cs) && MergedInto(cs, cs', id, toks, n)
    ensures AllSound(fields, al, nextID, cs')
  {
    GeneraliseSettles(cs[id].Tokens, toks);
    forall text ensures Sound(fields, al, nextID, cs', text) {
      assert Sound(fields, al, nextID, cs, text);
      if text in al && al[text] in cs {
        if al[text] == id {
          CoversTransitive(cs'[id].Tokens, cs[id].Tokens, fields(text));
        } else {
          assert SameTemplate(cs'[al[text]], cs[al[text]]);
        }
      }
    }
  }

  lemma WithAlias(fields: string -> seq<Token>, al: map<string, Id>, nextID: int, cs: map<Id, Cluster>, text: string, id: Id)
    requires AllSound(fields, al, nextID, cs) && id in cs && id <= nextID && Covers(cs[id].Tokens, fields(text))
    ensures AllSound(fields, al[text := id], nextID, cs)
  {
    var al' := al[text := id];
    forall t ensures Sound(fields, al', nextID, cs, t) {
      assert Sound(fields, al, nextID, cs, t);
    }
  }

  class Service {
    const miner: Miner
    /** How a text splits into tokens. */
    const fields: string -> seq<Token>
    var aliases: map<string, Id>

    ghost predicate Valid()
      reads this, miner
    {
      miner.Valid() && AllSound(fields, aliases, miner.nextID, miner.clusters)
    }

    constructor (miner: Miner, fields: string -> seq<Token>)
      requires miner.Valid()
      ensures Valid() && this.miner == miner && this.fields == fields && aliases == map[]
    {
      this.miner, this.fields, aliases := miner, fields, map[];
    }

    /** A message from anywhere: raw lines, or a text without a usable alias. */
    method Mine(toks: seq<Token>, n: int) returns (id: Id, ch: Change)
      requires Valid()
      modifies miner
      ensures Valid() && miner.nextID >= old(miner.nextID)
      ensures id in miner.clusters && Covers(miner.clusters[id].Tokens, toks)
      ensures miner.clusters[id].Size == n + if id in old(miner.clusters) then old(miner.clusters)[id].Size else 0
    {
      id, ch := miner.Add(toks, n);
      if ch == Created {
        AfterCreate(fields, aliases, old(miner.nextID), old(miner.clusters), miner.clusters);
      } else {
        AfterMerge(fields, aliases, old(miner.nextID), old(miner.clusters), miner.clusters, id, toks, n);
        GeneraliseSettles(old(miner.clusters)[id].Tokens, toks);
      }
    }

    /** The template for an agent's text. Whether an alias answered or the miner, the template
        returned is live and covers the text, n lines are counted for it, and the text is its alias. A usable alias
        answers without a change of any template. */
    method GlobalTemplate(text: string, n: int) returns (id: Id)
      requires Valid()
      modifies this, miner
      ensures Valid() && miner.nextID >= old(miner.nextID)
      ensures id in miner.clusters && Covers(miner.clusters[id].Tokens, fields(text))
      ensures miner.clusters[id].Size == n + if id in old(miner.clusters) then old(miner.clusters)[id].Size else 0
      ensures |aliases| <= Max(20000, 20 * miner.maxClusters) + 1 && text in aliases && aliases[text] == id
      ensures old(|aliases| <= Max(20000, 20 * miner.maxClusters) && text in aliases && aliases[text] in miner.clusters) ==>
        && id == old(aliases)[text] && miner.clusters.Keys == old(miner.clusters).Keys
        && forall c :: c in miner.clusters ==> miner.clusters[c].Tokens == old(miner.clusters)[c].Tokens
    {
      if |aliases| > 20 * (if miner.maxClusters > 1000 then miner.maxClusters else 1000) {
        aliases := map[];
        assert AllSound(fields, aliases, miner.nextID, miner.clusters);
      }
      if text in aliases {
        var found := miner.Hit(aliases[text], n);
        AfterHit(fields, aliases, miner.nextID, old(miner.clusters), miner.clusters);
        if found {
          assert Sound(fields, aliases, miner.nextID, miner.clusters, text);
          return aliases[text];
        }
      }
      var ch;
      id, ch := Mine(fields(text), n);
      LiveId(miner, id);
      WithAlias(fields, aliases, miner.nextID, miner.clusters, text, id);
      aliases := aliases[text := id];
    }
  }

  lemma AfterHit(fields: string -> seq<Token>, al: map<string, Id>, nextID: int, cs: map<Id, Cluster>, cs': map<Id, Cluster>)
    requires AllSound(fields, al, nextID, cs) && cs'.Keys == cs.Keys
    requires forall c :: c in cs' ==> cs'[c].Tokens == cs[c].Tokens
    ensures AllSound(fields, al, nextID, cs')
  {
    forall text ensures Sound(fields, al, nextID, cs', text) {
      assert Sound(fields, al, nextID, cs, text);
    }
  }

  lemma LiveId(m: Miner, id: Id)
    requires m.Valid() && id in m.clusters
    ensures id <= m.nextID
  {
  }
}

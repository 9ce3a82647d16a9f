/**
 * TranslationCache of utils.py: a dictionary from normalised source texts to
 * translations. Loading and saving the JSON file are outside the model; a save
 * is recorded as a counter.
 */
module Cache {
  import opened Strings
  import opened Wrappers

  /** clean_text_for_cache: lower case, then strip. */
  function CacheKey(text: String): (k: String)
    ensures |k| <= |text|
    ensures IsStripped(k)
    ensures forall i :: 0 <= i < |k| ==> !IsAsciiUpper(k[i])
  {
    if text == [] then []
    else
      LowerStripHasNoUpper(text);
      Strip(Lower(text))
  }

  lemma LowerStripHasNoUpper(text: String)
    ensures forall i :: 0 <= i < |Strip(Lower(text))| ==> !IsAsciiUpper(Strip(Lower(text))[i])
  {
    var a, b := StripBounds(Lower(text));
    assert forall i :: 0 <= i < b - a ==> Strip(Lower(text))[i] == Lower(text)[a + i];
  }

  lemma LowerOfLowered(s: String)
    requires forall i :: 0 <= i < |s| ==> !IsAsciiUpper(s[i])
    ensures Lower(s) == s
  {
  }

  /** Normalising a key twice changes nothing. */
  lemma CacheKeyIdempotent(text: String)
    ensures CacheKey(CacheKey(text)) == CacheKey(text)
  {
    var k := CacheKey(text);
    if k != [] {
      LowerOfLowered(k);
      StrippedIsFixed(k);
    }
  }

  /** dict.get on the normalised key. */
  function Lookup(entries: map<String, String>, text: String): (r: Option<String>)
    ensures r.Some? <==> CacheKey(text) in entries
    ensures r.Some? ==> r.value == entries[CacheKey(text)]
  {
    var k := CacheKey(text);
    if k in entries then Some(entries[k]) else None
  }

  /** The dictionary after cache[clean_text_for_cache(text)] = translation. */
  function Store(entries: map<String, String>, text: String, translation: String): (m: map<String, String>)
    ensures CacheKey(text) in m && m[CacheKey(text)] == translation
    ensures forall k :: k in entries && k != CacheKey(text) ==> k in m && m[k] == entries[k]
    ensures forall k :: k in m ==> k in entries || k == CacheKey(text)
  {
    entries[CacheKey(text) := translation]
  }

  /** A lookup with a key that normalises like the stored one finds the stored translation. */
  lemma LookupAfterStore(entries: map<String, String>, text: String, translation: String, query: String)
    requires CacheKey(query) == CacheKey(text)
    ensures Lookup(Store(entries, text, translation), query) == Some(translation)
  {
  }

  /** Storing leaves the lookup of every other normalised key as it was. */
  lemma LookupOtherAfterStore(entries: map<String, String>, text: String, translation: String, query: String)
    requires CacheKey(query) != CacheKey(text)
    ensures Lookup(Store(entries, text, translation), query) == Lookup(entries, query)
  {
  }

  /** Storing grows the dictionary by one entry exactly when the normalised key is new. */
  lemma StoreSize(entries: map<String, String>, text: String, translation: String)
    ensures |Store(entries, text, translation)| == |entries| + (if CacheKey(text) in entries then 0 else 1)
  {
    var k := CacheKey(text);
    var m := Store(entries, text, translation);
    if k in entries {
      assert m.Keys == entries.Keys;
    } else {
      assert m.Keys == entries.Keys + {k};
    }
  }

  class TranslationCache {
    var entries: map<String, String>
    /** How many times the dictionary was written out (save_cache). */
    var saves: nat

    /** The cache starts from the dictionary load_cache read (empty when there is no file). */
    constructor(loaded: map<String, String>)
      ensures entries == loaded && saves == 0
    {
      entries := loaded;
      saves := 0;
    }

    function Get(text: String): (r: Option<String>)
      reads this
      ensures r == Lookup(entries, text)
    {
      Lookup(entries, text)
    }

    /** set: overwrite the normalised key's entry, and save when the size becomes a multiple of 10. */
    method Set(text: String, translation: String)
      modifies this
      ensures entries == Store(old(entries), text, translation)
      ensures saves == old(saves) + (if |entries| % 10 == 0 then 1 else 0)
      ensures Get(text) == Some(translation)
      ensures forall q :: CacheKey(q) != CacheKey(text) ==> Get(q) == old(Get(q))
    {
      entries := Store(entries, text, translation);
      if |entries| % 10 == 0 {
        saves := saves + 1;
      }
      LookupAfterStore(old(entries), text, translation, text);
      forall q | CacheKey(q) != CacheKey(text)
        ensures Get(q) == old(Get(q))
      {
        LookupOtherAfterStore(old(entries), text, translation, q);
      }
    }
  }
}

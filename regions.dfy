/**
 * The region field of the search form: a fixed table from two-letter
 * Brazilian state codes to the court (tribunal) whose API is queried, used
 * only to pre-fill the tribunal field.
 */
module Regions {
  import opened Text

  /** `REGION_MAP`: one state court per federative unit. */
  const RegionMap: map<string, string> := map[
    "df" := "tjdft",
    "sp" := "tjsp",
    "rj" := "tjrj",
    "mg" := "tjmg",
    "rs" := "tjrs",
    "pr" := "tjpr",
    "sc" := "tjsc",
    "ba" := "tjba",
    "pe" := "tjpe",
    "ce" := "tjce",
    "go" := "tjgo",
    "mt" := "tjmt",
    "ms" := "tjms",
    "es" := "tjes",
    "am" := "tjam",
    "pa" := "tjpa",
    "ma" := "tjma",
    "pi" := "tjpi",
    "rn" := "tjrn",
    "pb" := "tjpb",
    "al" := "tjal",
    "se" := "tjse",
    "to" := "tjto",
    "ac" := "tjac",
    "ro" := "tjro",
    "rr" := "tjrr",
    "ap" := "tjap"
  ]

  /** The tribunal the form shows when the region is empty or unknown. */
  const FallbackTribunal := "tjdft"

  /** The region typed by the user, lower-cased and stripped of surrounding spaces. */
  function RegionKey(input: string): (key: string)
    ensures |key| <= |input|
    ensures forall i :: 0 <= i < |key| ==> !IsUpperAscii(key[i])
    ensures key == [] || (!IsSpace(key[0]) && !IsSpace(key[|key| - 1]))
  {
    var lowered := Lower(input);
    StripStartCuts(lowered);
    StripEndCuts(StripStart(lowered));
    Strip(lowered)
  }

  /**
   * The default tribunal: the fallback, overwritten by the table's entry when
   * the normalised region is one of its keys. The default is always a court
   * of the table.
   */
  method DefaultTribunal(regionInput: string) returns (tribunal: string)
    ensures RegionKey(regionInput) in RegionMap ==> tribunal == RegionMap[RegionKey(regionInput)]
    ensures RegionKey(regionInput) !in RegionMap ==> tribunal == FallbackTribunal
    ensures tribunal in RegionMap.Values
  {
    var key := RegionKey(regionInput);
    tribunal := FallbackTribunal;
    if key in RegionMap {
      tribunal := RegionMap[key];
    }
    RegionCourtsArePrefixed();
  }

  /** Every key of the table is a two-letter code. */
  lemma RegionKeysAreCodes()
    ensures forall k :: k in RegionMap ==> |k| == 2
  {
  }

  /** Every court of the table is "tj" followed by its region, except the Federal District's. */
  lemma RegionCourtsArePrefixed()
    ensures forall k :: k in RegionMap && k != "df" ==> RegionMap[k] == "tj" + k
    ensures "df" in RegionMap && RegionMap["df"] == "tjdft"
  {
  }

  /** A list without repeated elements has as many distinct elements as it is long. */
  lemma {:induction false} DistinctListSize(xs: seq<string>)
    requires forall i, j :: 0 <= i < j < |xs| ==> xs[i] != xs[j]
    ensures |set x | x in xs| == |xs|
  {
    if xs != [] {
      var init := xs[..|xs| - 1];
      DistinctListSize(init);
      assert (set x | x in xs) == (set x | x in init) + {xs[|xs| - 1]};
    }
  }

  /** The table's keys, in the order the source lists them. */
  const RegionCodes := ["df", "sp", "rj", "mg", "rs", "pr", "sc", "ba", "pe", "ce", "go", "mt", "ms", "es",
                        "am", "pa", "ma", "pi", "rn", "pb", "al", "se", "to", "ac", "ro", "rr", "ap"]

  /** No code is listed twice. */
  lemma RegionCodesDistinct()
    ensures forall i, j :: 0 <= i < j < |RegionCodes| ==> RegionCodes[i] != RegionCodes[j]
  {
  }

  /** The list holds exactly the keys of the table. */
  lemma RegionCodesAreKeys()
    ensures RegionMap.Keys == set r | r in RegionCodes
  {
  }

  /** The table has 27 entries: none of its 27 keys repeats another. */
  lemma RegionMapSize()
    ensures |RegionMap| == 27
  {
    RegionCodesDistinct();
    DistinctListSize(RegionCodes);
    RegionCodesAreKeys();
  }

  /**
   * A table of two-letter keys whose values are "tj" followed by the key,
   * with one exception of five letters, sends different keys to different
   * values.
   */
  lemma {:induction false} PrefixedTableInjective(m: map<string, string>, exception: string)
    requires forall k :: k in m ==> |k| == 2
    requires forall k :: k in m && k != exception ==> m[k] == "tj" + k
    requires exception in m && |m[exception]| == 5
    ensures forall a, b :: a in m && b in m && m[a] == m[b] ==> a == b
  {
    forall a, b | a in m && b in m && m[a] == m[b]
      ensures a == b
    {
      if a != exception && b != exception {
        assert a == ("tj" + a)[2..] && b == ("tj" + b)[2..];
      }
    }
  }

  /** No two regions share a court, so the table can be read backwards. */
  lemma RegionMapInjective()
    ensures forall a, b :: a in RegionMap && b in RegionMap && RegionMap[a] == RegionMap[b] ==> a == b
  {
    RegionKeysAreCodes();
    RegionCourtsArePrefixed();
    PrefixedTableInjective(RegionMap, "df");
  }

  /** Every key of the table is written in lower-case letters. */
  lemma RegionKeysAreLowerCase()
    ensures forall k :: k in RegionMap ==> k != [] && forall i :: 0 <= i < |k| ==> 'a' <= k[i] <= 'z'
  {
    forall k | k in RegionMap
      ensures k != [] && forall i :: 0 <= i < |k| ==> 'a' <= k[i] <= 'z'
    {
      assert |k| == 2 && 'a' <= k[0] <= 'z' && 'a' <= k[1] <= 'z';
    }
  }

  /** A word that lower-cases to lower-case letters, typed with spaces around it, is read as its lower-case form. */
  lemma RegionKeyOfWord(word: string, before: string, after: string)
    requires Lower(word) != [] && forall i :: 0 <= i < |Lower(word)| ==> 'a' <= Lower(word)[i] <= 'z'
    requires AllSpace(before) && AllSpace(after)
    ensures RegionKey(before + word + after) == Lower(word)
  {
    var k := Lower(word);
    assert !IsSpace(k[0]) && !IsSpace(k[|k| - 1]);
    LowerKeepsSpaces(before, word, after);
    StripAround(before, k, after);
  }

  /**
   * Whatever its capitals, a word that lower-cases to a key of the table,
   * typed with spaces around it, is read as that key.
   */
  lemma RegionKeyOfTyped(word: string, before: string, after: string)
    requires Lower(word) in RegionMap
    requires AllSpace(before) && AllSpace(after)
    ensures RegionKey(before + word + after) == Lower(word)
  {
    RegionKeysAreLowerCase();
    RegionKeyOfWord(word, before, after);
  }

  /** A key of the table typed with spaces around it is read as that key, so its court is the default. */
  lemma RegionKeyOfKey(k: string, before: string, after: string)
    requires k in RegionMap
    requires AllSpace(before) && AllSpace(after)
    ensures RegionKey(before + k + after) == k
  {
    RegionKeysAreLowerCase();
    LowerOfLowerCase(k);
    RegionKeyOfTyped(k, before, after);
  }

  /** " SP " selects São Paulo's court. */
  lemma RegionKeyExample()
    ensures RegionKey(" SP ") == "sp"
  {
    assert Lower("SP") == "sp";
    assert " SP " == " " + "SP" + " ";
    RegionKeyOfTyped("SP", " ", " ");
  }
}

/**
 * `normalize_data` and `pivot_table`: clean the long (label, value) list
 * and fold it into one wide record.
 *
 * `unidecode` is foreign code: it is the parameter `translit`, about which
 * nothing is assumed.
 */
module Normalize {
  import opened Page
  import opened Strings

  /** One wide row: a column per distinct label. Column order is not modelled. */
  type Record = map<string, string>

  /** The filter `Label.notnull() & (Label != '')`; labels are never null here. */
  function DropEmptyLabels(ps: seq<Pair>): (r: seq<Pair>)
    ensures forall p :: p in r <==> p in ps && p.name != ""
    ensures |r| <= |ps|
  {
    if ps == [] then []
    else
      assert ps == [ps[0]] + ps[1..];
      (if ps[0].name == "" then [] else [ps[0]]) + DropEmptyLabels(ps[1..])
  }

  /** A whole-column transform of the Label column. */
  function MapNames(ps: seq<Pair>, f: string -> string): seq<Pair>
  {
    seq(|ps|, i requires 0 <= i < |ps| => Pair(f(ps[i].name), ps[i].value))
  }

  /** A whole-column transform of the Value column. */
  function MapValues(ps: seq<Pair>, f: string -> string): seq<Pair>
  {
    seq(|ps|, i requires 0 <= i < |ps| => Pair(ps[i].name, f(ps[i].value)))
  }

  /**
   * The five cleaning steps of `normalize_data`, in the source's order:
   * one cleaned pair per pair with a non-empty raw label, and no period
   * left in any label.
   */
  function CleanPairs(ps: seq<Pair>, translit: string -> string): (r: seq<Pair>)
    ensures |r| == |DropEmptyLabels(ps)|
    ensures forall q :: q in r ==> '.' !in q.name
  {
    var kept := DropEmptyLabels(ps);
    var step1 := MapNames(kept, translit);
    var step2 := MapValues(step1, v => Replace(v, "\n", ""));
    var step3 := MapNames(step2, l => Replace(l, "", ""));
    var step4 := MapNames(step3, l => Replace(l, ".", ""));
    var r := MapValues(step4, translit);
    assert forall i :: 0 <= i < |r| ==> '.' !in r[i].name by {
      forall i | 0 <= i < |r| {
        DeleteChar(step3[i].name, '.');
      }
    }
    r
  }

  /** What one raw label becomes: transliterated, then stripped of every period. */
  function CleanLabel(l: string, translit: string -> string): string
  {
    Replace(translit(l), ".", "")
  }

  /** What one raw value becomes: stripped of every newline, then transliterated. */
  function CleanValue(v: string, translit: string -> string): string
  {
    translit(Replace(v, "\n", ""))
  }

  /**
   * `pivot_table`: one record whose columns are the distinct labels. Each
   * column holds the value of some pair with that label; which one, when a
   * label repeats, is left open (the body keeps the last).
   */
  function Pivot(ps: seq<Pair>): (r: Record)
    ensures r.Keys == set p | p in ps :: p.name
    ensures forall k :: k in r ==> exists p :: p in ps && p.name == k && p.value == r[k]
    decreases |ps|
  {
    if ps == [] then map[]
    else
      var last := ps[|ps| - 1];
      assert ps == ps[..|ps| - 1] + [last];
      Pivot(ps[..|ps| - 1])[last.name := last.value]
  }

  /** `normalize_data`: the cleaning chain followed by the pivot. No column name holds a period. */
  function NormalizeData(ps: seq<Pair>, translit: string -> string): (r: Record)
    ensures forall k :: k in r ==> '.' !in k
  {
    Pivot(CleanPairs(ps, translit))
  }

  /**
   * The chain acts pair by pair: it keeps the pairs with a non-empty raw
   * label, in order, and cleans each label and value on its own
   * (`replace('', '')` being the identity).
   */
  lemma CleanPairsPointwise(ps: seq<Pair>, translit: string -> string)
    ensures |CleanPairs(ps, translit)| == |DropEmptyLabels(ps)|
    ensures forall i :: 0 <= i < |DropEmptyLabels(ps)| ==>
      CleanPairs(ps, translit)[i] ==
        Pair(CleanLabel(DropEmptyLabels(ps)[i].name, translit), CleanValue(DropEmptyLabels(ps)[i].value, translit))
  {
    var kept := DropEmptyLabels(ps);
    forall i | 0 <= i < |kept| {
      ReplaceEmptyByEmpty(translit(kept[i].name));
    }
  }

  /**
   * The columns are exactly the cleaned forms of the non-empty raw labels,
   * and every column holds the cleaned value of a pair carrying that label.
   */
  lemma NormalizeColumns(ps: seq<Pair>, translit: string -> string)
    ensures NormalizeData(ps, translit).Keys ==
      set p | p in ps && p.name != "" :: CleanLabel(p.name, translit)
    ensures forall k :: k in NormalizeData(ps, translit) ==>
      exists p :: p in ps && p.name != "" && CleanLabel(p.name, translit) == k
                  && NormalizeData(ps, translit)[k] == CleanValue(p.value, translit)
  {
    var kept := DropEmptyLabels(ps);
    var cleaned := CleanPairs(ps, translit);
    var r := NormalizeData(ps, translit);
    CleanPairsPointwise(ps, translit);
    forall k | k in r.Keys
      ensures exists p :: p in ps && p.name != "" && CleanLabel(p.name, translit) == k
                          && r[k] == CleanValue(p.value, translit)
    {
      var q :| q in cleaned && q.name == k && q.value == r[k];
      var i :| 0 <= i < |cleaned| && cleaned[i] == q;
      assert kept[i] in kept;
    }
    forall p | p in ps && p.name != ""
      ensures CleanLabel(p.name, translit) in r.Keys
    {
      assert p in kept;
      var i :| 0 <= i < |kept| && kept[i] == p;
      assert cleaned[i] in cleaned;
    }
  }

  /**
   * The empty-label filter looks at the raw label: a non-empty label that
   * transliterates to periods only (such as ".") survives it and then
   * becomes the empty column name.
   */
  lemma PeriodOnlyLabelBecomesEmptyColumn(ps: seq<Pair>, l: string, v: string, translit: string -> string)
    requires Pair(l, v) in ps && l != ""
    requires forall i :: 0 <= i < |translit(l)| ==> translit(l)[i] == '.'
    ensures "" in NormalizeData(ps, translit)
  {
    NormalizeColumns(ps, translit);
    DeleteCharFromRun(translit(l), '.');
    assert CleanLabel(Pair(l, v).name, translit) == "";
  }

  /**
   * A value loses its newlines and nothing else before transliteration:
   * periods and every other character stay, in order and number, and a
   * value without newlines is transliterated as it is (so "12.34" stays
   * "12.34" up to `unidecode`).
   */
  lemma ValueCleaningKeepsPeriods(v: string, translit: string -> string)
    ensures CleanValue(v, translit) == translit(Without(v, '\n'))
    ensures multiset(Without(v, '\n'))['.'] == multiset(v)['.']
    ensures '\n' !in v ==> CleanValue(v, translit) == translit(v)
  {
    DeleteChar(v, '\n');
  }

  /** Labels do not have their newlines removed: only periods go, the rest stays in order and number. */
  lemma LabelCleaningKeepsNewlines(l: string, translit: string -> string)
    ensures CleanLabel(l, translit) == Without(translit(l), '.')
    ensures multiset(CleanLabel(l, translit))['\n'] == multiset(translit(l))['\n']
    ensures '\n' in translit(l) <==> '\n' in CleanLabel(l, translit)
  {
    DeleteChar(translit(l), '.');
  }

  /** The filter splits over a concatenation. */
  lemma {:induction false} DropEmptyLabelsAppend(a: seq<Pair>, b: seq<Pair>)
    ensures DropEmptyLabels(a + b) == DropEmptyLabels(a) + DropEmptyLabels(b)
    decreases |a|
  {
    if a == [] {
      assert a + b == b;
    } else {
      assert (a + b)[1..] == a[1..] + b;
      DropEmptyLabelsAppend(a[1..], b);
    }
  }

  /** The record depends on the raw pairs only through those the filter keeps. */
  lemma NormalizeSeesKeptPairsOnly(x: seq<Pair>, y: seq<Pair>, translit: string -> string)
    requires DropEmptyLabels(x) == DropEmptyLabels(y)
    ensures NormalizeData(x, translit) == NormalizeData(y, translit)
  {
    assert CleanPairs(x, translit) == CleanPairs(y, translit);
  }

  /** A pair with an empty label, wherever it stands, leaves the record unchanged. */
  lemma EmptyLabelIgnored(a: seq<Pair>, b: seq<Pair>, v: string, translit: string -> string)
    ensures NormalizeData(a + [Pair("", v)] + b, translit) == NormalizeData(a + b, translit)
  {
    var e := [Pair("", v)];
    DropEmptyLabelsAppend(a + e, b);
    DropEmptyLabelsAppend(a, e);
    DropEmptyLabelsAppend(a, b);
    assert e[1..] == [];
    assert DropEmptyLabels(e) == [];
    assert DropEmptyLabels(a) + [] == DropEmptyLabels(a);
    NormalizeSeesKeptPairsOnly(a + e + b, a + b, translit);
  }
}

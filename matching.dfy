/** `find_master_data` and the table it feeds: each product name is matched against the master
    product names by an external scorer, and the match is kept only at a score of 85 or more. */
module Matching {
  import opened Frames

  /** `process.extractOne(query, choices)`: the best choice and its score. Its string kernel
      is not part of the model. */
  type Scorer = (string, seq<string>) -> (string, int)

  /** What the pipeline relies on from the scorer: it returns one of the choices, with a score
      from 0 to 100. */
  ghost predicate ScorerContract(extract: Scorer, choices: seq<string>) {
    forall q :: extract(q, choices).0 in choices && 0 <= extract(q, choices).1 <= 100
  }

  const Threshold := 85
  const Fallback := "Lain-lain"

  /** `dict.get(key, default)`. */
  function Get(m: map<string, Cell>, key: string, default: Cell): Cell {
    if key in m then m[key] else default
  }

  /** `pd.Series(categories, index=names).to_dict()`: each name maps to its category; when a
      name repeats, its last row wins. */
  function CategoryMap(names: seq<string>, categories: seq<Cell>): (m: map<string, Cell>)
    requires |names| == |categories|
    ensures m.Keys == set i | 0 <= i < |names| :: names[i]
  {
    if names == [] then map[]
    else
      var n := |names| - 1;
      CategoryMap(names[..n], categories[..n])[names[n] := categories[n]]
  }

  /** A name maps to the category of its last row; with no repeated names, to that of its own
      row. */
  lemma {:induction false} CategoryMapLastWins(names: seq<string>, categories: seq<Cell>, i: nat)
    requires |names| == |categories| && i < |names|
    requires forall j :: i < j < |names| ==> names[j] != names[i]
    ensures names[i] in CategoryMap(names, categories)
    ensures CategoryMap(names, categories)[names[i]] == categories[i]
    decreases |names|
  {
    var n := |names| - 1;
    if i < n {
      CategoryMapLastWins(names[..n], categories[..n], i);
    }
  }

  /** `find_master_data(product_name)`: an empty name is returned unchanged with the fallback
      category without consulting the scorer; otherwise the scorer's best master name is taken
      when its score reaches the threshold, with its category (or the fallback). The scorer is
      only consulted with a non-empty list of master names (`extractOne` gives `None` on an
      empty list, which the unpacking cannot take). */
  function FindMasterData(name: string, choices: seq<string>, categories: map<string, Cell>, extract: Scorer)
    : (r: (string, Cell))
    requires name == "" || |choices| > 0
    ensures name == "" ==> r == (name, Text(Fallback))
  {
    if name == "" then (name, Text(Fallback))
    else
      var (best, score) := extract(name, choices);
      if score >= Threshold then (best, Get(categories, best, Text(Fallback)))
      else (name, Text(Fallback))
  }

  /** The decision rule: a non-empty name is replaced by the scorer's best master name exactly
      when the score is at least 85 (so 85 is accepted and 84 is not), and then takes that
      master name's category; otherwise it is kept with the fallback category. */
  lemma MatchDecision(name: string, choices: seq<string>, categories: map<string, Cell>, extract: Scorer)
    requires name != "" && |choices| > 0
    ensures var r, best, score := FindMasterData(name, choices, categories, extract),
        extract(name, choices).0, extract(name, choices).1;
      && (score >= 85 ==> r == (best, Get(categories, best, Text(Fallback))))
      && (score < 85 ==> r == (name, Text(Fallback)))
  {
  }

  /** With a scorer that keeps its contract, the product name of a match is either the original
      name or one of the master names, and a category other than the fallback comes from the
      master table's entry for that master name. */
  lemma MatchedNameIsMaster(name: string, choices: seq<string>, categories: map<string, Cell>, extract: Scorer)
    requires name == "" || |choices| > 0
    requires ScorerContract(extract, choices)
    ensures var r := FindMasterData(name, choices, categories, extract);
      && (r.0 == name || r.0 in choices)
      && (r.1 != Text(Fallback) ==> r.0 in choices && r.0 in categories && r.1 == categories[r.0])
  {
  }

  /** When the master table maps each master name to a category, an accepted match always
      carries that master name's category. */
  lemma AcceptedMatchCategory(name: string, choices: seq<string>, categoryCells: seq<Cell>, extract: Scorer)
    requires name != "" && |choices| > 0 && |categoryCells| == |choices|
    requires ScorerContract(extract, choices)
    requires extract(name, choices).1 >= Threshold
    ensures var best := extract(name, choices).0;
      var r := FindMasterData(name, choices, CategoryMap(choices, categoryCells), extract);
      && best in choices
      && r.0 == best
      && exists i :: 0 <= i < |choices| && choices[i] == best && r.1 == categoryCells[i]
  {
    var best := extract(name, choices).0;
    var i :| 0 <= i < |choices| && choices[i] == best;
    var last := LastIndexOf(choices, i);
    CategoryMapLastWins(choices, categoryCells, last);
  }

  /** The last index holding the same name as index `i`. */
  function LastIndexOf(names: seq<string>, i: nat): (j: nat)
    requires i < |names|
    ensures i <= j < |names| && names[j] == names[i]
    ensures forall k :: j < k < |names| ==> names[k] != names[j]
    decreases |names| - i
  {
    if exists k :: i < k < |names| && names[k] == names[i] then
      var k :| i < k < |names| && names[k] == names[i];
      LastIndexOf(names, k)
    else i
  }

  /** `df['NAMA'].apply(find_master_data)`: one match per row, in row order. */
  function MatchAll(names: seq<string>, choices: seq<string>, categories: map<string, Cell>, extract: Scorer)
    : (matches: seq<(string, Cell)>)
    requires |choices| > 0 || forall i :: 0 <= i < |names| ==> names[i] == ""
    ensures |matches| == |names|
    ensures forall i :: 0 <= i < |names| ==> matches[i] == FindMasterData(names[i], choices, categories, extract)
  {
    seq(|names|, i requires 0 <= i < |names| => FindMasterData(names[i], choices, categories, extract))
  }

  const MasterNameColumn := "Nama Produk Master"
  const CategoryColumn := "Kategori"

  /** `pd.concat([df, match_results], axis=1)` with `match_results.columns = ['Nama Produk
      Master', 'Kategori']`: row `i` gains the two cells of match `i`. */
  function Attach(f: Frame, matches: seq<(string, Cell)>): (r: Frame)
    requires WellFormed(f) && |matches| == |f.rows|
    requires MasterNameColumn !in f.columns && CategoryColumn !in f.columns
    ensures WellFormed(r) && |r.rows| == |f.rows|
    ensures r.columns == f.columns + [MasterNameColumn, CategoryColumn]
    ensures forall i :: 0 <= i < |r.rows| ==>
      r.rows[i] == f.rows[i][MasterNameColumn := Text(matches[i].0)][CategoryColumn := matches[i].1]
  {
    var named := WithColumn(f, MasterNameColumn, seq(|matches|, i requires 0 <= i < |matches| => Text(matches[i].0)));
    WithColumn(named, CategoryColumn, seq(|matches|, i requires 0 <= i < |matches| => matches[i].1))
  }
}

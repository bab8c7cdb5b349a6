/**
 Records of the complaint table, their (year, product) key, and the cut of a record
 sequence into maximal runs of equal key that the report scan of `generate_report`
 (src/consumer_complaints.py) walks through.
 */
module Grouping {
  import opened Lexicographic

  /** One input record, reduced to the three columns the report reads. */
  datatype Complaint = Complaint(dateReceived: string, product: string, company: string)

  /** The (year, product) pair records are sorted and grouped by. */
  datatype Key = Key(year: string, product: string)

  /** `date.split('-')[0]`: the first '-'-separated field of the date. */
  function Year(date: string): string
  {
    if date == [] || date[0] == '-' then [] else [date[0]] + Year(date[1..])
  }

  /** The year is the text before the first '-', or the whole date if it has none. */
  lemma {:induction false} YearIsFirstField(date: string)
    ensures Year(date) <= date
    ensures '-' !in Year(date)
    ensures |Year(date)| < |date| ==> date[|Year(date)|] == '-'
  {
    if date != [] && date[0] != '-' {
      YearIsFirstField(date[1..]);
      assert date == [date[0]] + date[1..];
    }
  }

  /** The grouping key of a record; the product is taken as stored. */
  function KeyOf(c: Complaint): Key
  {
    Key(Year(c.dateReceived), c.product)
  }

  /** Python's order on (year, product) tuples. */
  predicate KeyLe(k1: Key, k2: Key)
  {
    StrLt(k1.year, k2.year) || (k1.year == k2.year && StrLe(k1.product, k2.product))
  }

  lemma KeyLeRefl(k: Key)
    ensures KeyLe(k, k)
  {
    StrLeRefl(k.product);
  }

  lemma KeyLeAntisym(k1: Key, k2: Key)
    requires KeyLe(k1, k2) && KeyLe(k2, k1)
    ensures k1 == k2
  {
    if k1.year != k2.year {
      StrLeAntisym(k1.year, k2.year);
    } else {
      StrLeAntisym(k1.product, k2.product);
    }
  }

  lemma KeyLeTrans(k1: Key, k2: Key, k3: Key)
    requires KeyLe(k1, k2) && KeyLe(k2, k3)
    ensures KeyLe(k1, k3)
  {
    if k1.year == k2.year && k2.year == k3.year {
      StrLeTrans(k1.product, k2.product, k3.product);
    } else if k1.year != k2.year && k2.year != k3.year {
      StrLeTrans(k1.year, k2.year, k3.year);
      if k1.year == k3.year {
        StrLeAntisym(k1.year, k2.year);
      }
    }
  }

  /** The order `sorted(..., key=(year, product))` leaves the records in. */
  predicate KeySorted(s: seq<Complaint>)
  {
    forall i, j :: 0 <= i < j < |s| ==> KeyLe(KeyOf(s[i]), KeyOf(s[j]))
  }

  /** The distinct keys present in `s`. */
  function KeysOf(s: seq<Complaint>): set<Key>
  {
    set i | 0 <= i < |s| :: KeyOf(s[i])
  }

  function Last<T>(s: seq<T>): T
    requires |s| > 0
  {
    s[|s| - 1]
  }

  /** The key of a run: that of its first record. */
  function RunKey(run: seq<Complaint>): Key
    requires run != []
  {
    KeyOf(run[0])
  }

  /** The records of `s` cut into maximal runs of equal key, in order: each record either
      joins the run in progress (same key) or opens a new one. */
  function Runs(s: seq<Complaint>): (rs: seq<seq<Complaint>>)
    ensures (rs == []) == (s == [])
    ensures forall i :: 0 <= i < |rs| ==> rs[i] != []
    ensures s != [] ==> Last(Last(rs)) == Last(s)
  {
    if s == [] then []
    else
      var rs := Runs(s[..|s| - 1]);
      var c := Last(s);
      if rs != [] && RunKey(Last(rs)) == KeyOf(c) then rs[..|rs| - 1] + [Last(rs) + [c]]
      else rs + [[c]]
  }

  /** The runs laid end to end. */
  function Flatten(rs: seq<seq<Complaint>>): seq<Complaint>
  {
    if rs == [] then [] else Flatten(rs[..|rs| - 1]) + Last(rs)
  }

  /** Every run holds records of a single key. */
  ghost predicate RunsUniform(rs: seq<seq<Complaint>>)
  {
    forall i, j :: 0 <= i < |rs| && 0 <= j < |rs[i]| ==> KeyOf(rs[i][j]) == KeyOf(rs[i][0])
  }

  /** Neighbouring runs have different keys, so no run could be longer. */
  ghost predicate NeighboursDiffer(rs: seq<seq<Complaint>>)
  {
    forall i :: 0 < i < |rs| && rs[i - 1] != [] && rs[i] != [] ==> KeyOf(rs[i - 1][0]) != KeyOf(rs[i][0])
  }

  /** `rs` partitions `s` into non-empty runs, each of one key, neighbours of different keys. */
  ghost predicate IsRunPartition(s: seq<Complaint>, rs: seq<seq<Complaint>>)
  {
    && Flatten(rs) == s
    && (forall i :: 0 <= i < |rs| ==> rs[i] != [])
    && RunsUniform(rs)
    && NeighboursDiffer(rs)
  }

  /** One more record either extends the run in progress or opens a new run. */
  lemma RunsSnoc(p: seq<Complaint>, c: Complaint)
    ensures var rs := Runs(p);
      Runs(p + [c]) ==
        if rs != [] && RunKey(Last(rs)) == KeyOf(c) then rs[..|rs| - 1] + [Last(rs) + [c]]
        else rs + [[c]]
  {
    assert (p + [c])[..|p|] == p;
  }

  lemma FlattenSnoc(rs: seq<seq<Complaint>>, run: seq<Complaint>)
    ensures Flatten(rs + [run]) == Flatten(rs) + run
  {
    assert (rs + [run])[..|rs|] == rs;
  }

  lemma PartitionExtend(p: seq<Complaint>, rs: seq<seq<Complaint>>, c: Complaint)
    requires IsRunPartition(p, rs) && rs != [] && RunKey(Last(rs)) == KeyOf(c)
    ensures IsRunPartition(p + [c], rs[..|rs| - 1] + [Last(rs) + [c]])
  {
    var init := rs[..|rs| - 1];
    assert rs == init + [Last(rs)];
    FlattenSnoc(init, Last(rs));
    FlattenSnoc(init, Last(rs) + [c]);
    UniformExtend(rs, c);
    DifferExtend(rs, c);
  }

  lemma UniformExtend(rs: seq<seq<Complaint>>, c: Complaint)
    requires RunsUniform(rs) && rs != [] && Last(rs) != [] && RunKey(Last(rs)) == KeyOf(c)
    ensures RunsUniform(rs[..|rs| - 1] + [Last(rs) + [c]])
  {
    var run := Last(rs);
    var rs' := rs[..|rs| - 1] + [run + [c]];
    forall i, j | 0 <= i < |rs'| && 0 <= j < |rs'[i]|
      ensures KeyOf(rs'[i][j]) == KeyOf(rs'[i][0])
    {
      if i < |rs| - 1 {
        assert rs'[i] == rs[i];
      } else {
        assert rs'[i] == run + [c];
        if j < |run| {
          assert rs'[i][j] == run[j];
          assert rs[|rs| - 1] == run;
        }
      }
    }
  }

  lemma DifferExtend(rs: seq<seq<Complaint>>, c: Complaint)
    requires NeighboursDiffer(rs) && rs != [] && Last(rs) != []
    ensures NeighboursDiffer(rs[..|rs| - 1] + [Last(rs) + [c]])
  {
    var rs' := rs[..|rs| - 1] + [Last(rs) + [c]];
    forall i | 0 < i < |rs'| && rs'[i - 1] != [] && rs'[i] != []
      ensures KeyOf(rs'[i - 1][0]) != KeyOf(rs'[i][0])
    {
      assert rs'[i - 1] == rs[i - 1];
      if i < |rs| - 1 {
        assert rs'[i] == rs[i];
      } else {
        assert rs'[i] == Last(rs) + [c];
      }
      assert rs'[i][0] == rs[i][0];
    }
  }

  lemma {:induction false} PartitionOpen(p: seq<Complaint>, rs: seq<seq<Complaint>>, c: Complaint)
    requires IsRunPartition(p, rs) && (rs == [] || RunKey(Last(rs)) != KeyOf(c))
    ensures IsRunPartition(p + [c], rs + [[c]])
  {
    FlattenSnoc(rs, [c]);
    var rs' := rs + [[c]];
    assert forall i :: 0 <= i < |rs| ==> rs'[i] == rs[i];
  }

  /** Every record belongs to exactly one run, and the runs are the maximal ones. */
  lemma {:induction false} RunsPartition(s: seq<Complaint>)
    ensures IsRunPartition(s, Runs(s))
  {
    if s != [] {
      var p, c := s[..|s| - 1], Last(s);
      assert s == p + [c];
      var rs := Runs(p);
      RunsPartition(p);
      RunsSnoc(p, c);
      if rs != [] && RunKey(Last(rs)) == KeyOf(c) {
        PartitionExtend(p, rs, c);
      } else {
        PartitionOpen(p, rs, c);
      }
    }
  }

  /** The last run holds the last record, so it carries the key of the last record. */
  lemma LastRunKey(s: seq<Complaint>)
    requires s != []
    ensures RunKey(Last(Runs(s))) == KeyOf(Last(s))
  {
    RunsPartition(s);
    var run := Last(Runs(s));
    assert run[|run| - 1] == Last(s);
  }

  /** Sorted input has its keys non-decreasing on every prefix. */
  lemma SortedPrefix(s: seq<Complaint>, k: nat)
    requires KeySorted(s) && k <= |s|
    ensures KeySorted(s[..k])
  {
    assert forall i :: 0 <= i < k ==> s[..k][i] == s[i];
  }

  lemma KeysSnoc(p: seq<Complaint>, c: Complaint)
    ensures KeysOf(p + [c]) == KeysOf(p) + {KeyOf(c)}
  {
    var s := p + [c];
    assert forall i :: 0 <= i < |p| ==> s[i] == p[i];
    assert s[|p|] == c;
  }

  /** On sorted input the runs are exactly the distinct keys: one run per (year, product). */
  lemma {:induction false} SortedRunsAreKeys(s: seq<Complaint>)
    requires KeySorted(s)
    ensures |Runs(s)| == |KeysOf(s)|
  {
    if s != [] {
      var p, c := s[..|s| - 1], Last(s);
      assert s == p + [c];
      SortedPrefix(s, |s| - 1);
      SortedRunsAreKeys(p);
      KeysSnoc(p, c);
      SnocRunCount(p, c);
    }
  }

  /** One more sorted record opens a run exactly when its key is new. */
  lemma SnocRunCount(p: seq<Complaint>, c: Complaint)
    requires KeySorted(p + [c])
    ensures |Runs(p + [c])| == |Runs(p)| + if KeyOf(c) in KeysOf(p) then 0 else 1
  {
    RunsSnoc(p, c);
    if p != [] {
      LastRunKey(p);
      if KeyOf(Last(p)) == KeyOf(c) {
        assert p[|p| - 1] == Last(p);
      } else {
        NewKeyUnseen(p, c);
      }
    }
  }

  /** On sorted input, a key other than the last one's has not occurred before. */
  lemma NewKeyUnseen(p: seq<Complaint>, c: Complaint)
    requires KeySorted(p + [c]) && p != [] && KeyOf(Last(p)) != KeyOf(c)
    ensures KeyOf(c) !in KeysOf(p)
  {
    var s := p + [c];
    forall i | 0 <= i < |p| ensures KeyOf(p[i]) != KeyOf(c) {
      assert s[i] == p[i] && s[|s| - 2] == Last(p) && s[|s| - 1] == c;
      AfterLastKey(s, i);
    }
  }

  /** On sorted input, a record whose key differs from its predecessor's differs from the
      key of every earlier record. */
  lemma AfterLastKey(s: seq<Complaint>, i: nat)
    requires KeySorted(s) && i < |s| - 1 && KeyOf(s[|s| - 2]) != KeyOf(s[|s| - 1])
    ensures KeyLe(KeyOf(s[i]), KeyOf(s[|s| - 1])) && KeyOf(s[i]) != KeyOf(s[|s| - 1])
  {
    var a, b, c := KeyOf(s[i]), KeyOf(s[|s| - 2]), KeyOf(s[|s| - 1]);
    if a == c {
      if i < |s| - 2 {
        assert KeyLe(a, b);
      } else {
        KeyLeRefl(a);
      }
      KeyLeAntisym(b, c);
    }
  }

  /** On sorted input the runs appear in strictly ascending key order. */
  lemma {:induction false} SortedRunKeysAscend(s: seq<Complaint>)
    requires KeySorted(s)
    ensures forall i, j :: 0 <= i < j < |Runs(s)| ==>
      KeyLe(RunKey(Runs(s)[i]), RunKey(Runs(s)[j])) && RunKey(Runs(s)[i]) != RunKey(Runs(s)[j])
  {
    if s != [] {
      var p, c := s[..|s| - 1], Last(s);
      assert s == p + [c];
      SortedPrefix(s, |s| - 1);
      SortedRunKeysAscend(p);
      var rs := Runs(p);
      if rs != [] && RunKey(Last(rs)) == KeyOf(c) {
        ExtendKeepsRunKeys(p, c);
      } else {
        RunsSnoc(p, c);
        assert Runs(s) == rs + [[c]];
        NewKeyAboveRuns(p, c);
      }
    }
  }

  /** A record that joins the last run leaves the key of every run as it was. */
  lemma ExtendKeepsRunKeys(p: seq<Complaint>, c: Complaint)
    requires Runs(p) != [] && RunKey(Last(Runs(p))) == KeyOf(c)
    ensures |Runs(p + [c])| == |Runs(p)|
    ensures forall i :: 0 <= i < |Runs(p)| ==> RunKey(Runs(p + [c])[i]) == RunKey(Runs(p)[i])
  {
    var rs := Runs(p);
    var rs' := rs[..|rs| - 1] + [Last(rs) + [c]];
    RunsSnoc(p, c);
    assert Runs(p + [c]) == rs';
    forall i | 0 <= i < |rs| ensures rs'[i][0] == rs[i][0] {
      if i < |rs| - 1 {
        assert rs'[i] == rs[i];
      } else {
        assert rs'[i] == Last(rs) + [c];
      }
    }
  }

  /** On sorted input, a record that opens a run has a key above that of every earlier run. */
  lemma NewKeyAboveRuns(p: seq<Complaint>, c: Complaint)
    requires KeySorted(p + [c])
    requires Runs(p) == [] || RunKey(Last(Runs(p))) != KeyOf(c)
    requires forall i, j :: 0 <= i < j < |Runs(p)| ==> KeyLe(RunKey(Runs(p)[i]), RunKey(Runs(p)[j]))
    ensures forall i :: 0 <= i < |Runs(p)| ==>
      KeyLe(RunKey(Runs(p)[i]), KeyOf(c)) && RunKey(Runs(p)[i]) != KeyOf(c)
  {
    var rs := Runs(p);
    if rs != [] {
      LastRunKey(p);
      var s := p + [c];
      assert KeyLe(KeyOf(Last(p)), KeyOf(c)) by {
        assert s[|s| - 2] == Last(p) && s[|s| - 1] == c;
      }
      forall i | 0 <= i < |rs|
        ensures KeyLe(RunKey(rs[i]), KeyOf(c)) && RunKey(rs[i]) != KeyOf(c)
      {
        if i < |rs| - 1 {
          KeyLeTrans(RunKey(rs[i]), RunKey(Last(rs)), KeyOf(c));
          if RunKey(rs[i]) == KeyOf(c) {
            KeyLeAntisym(RunKey(Last(rs)), KeyOf(c));
          }
        }
      }
    }
  }
}

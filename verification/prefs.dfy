/** A SharedPreferences namespace seen as a map from keys to string values,
    and an editor as the ordered list of `putString` calls it collects
    before `apply()` commits them all at once. */
module Prefs {
  import opened Wrappers

  type Store = map<string, string>

  /** One `editor.putString(key, value)`. */
  datatype Put = Put(key: string, value: string)

  /** `getString(key, default)`. */
  function GetString(prefs: Store, key: string, default: string): string {
    if key in prefs then prefs[key] else default
  }

  /** The namespace after `apply()` of an editor holding `puts`, in order. */
  function Apply(prefs: Store, puts: seq<Put>): Store
    decreases |puts|
  {
    if |puts| == 0 then prefs
    else Apply(prefs[puts[0].key := puts[0].value], puts[1..])
  }

  /** The value of the last put of `key`, if there is one. */
  function LastPut(puts: seq<Put>, key: string): (r: Option<string>)
    ensures r.None? <==> forall i :: 0 <= i < |puts| ==> puts[i].key != key
    ensures r.Some? ==> exists i :: 0 <= i < |puts| && puts[i] == Put(key, r.value)
  {
    if |puts| == 0 then None
    else if puts[|puts| - 1].key == key then Some(puts[|puts| - 1].value)
    else
      var r := LastPut(puts[..|puts| - 1], key);
      assert forall i :: 0 <= i < |puts| - 1 ==> puts[..|puts| - 1][i] == puts[i];
      r
  }

  /** The put at `i` is the last one of its key, so it is the one `LastPut` finds. */
  lemma {:induction false} LastPutAt(puts: seq<Put>, i: nat)
    requires i < |puts|
    requires forall j :: i < j < |puts| ==> puts[j].key != puts[i].key
    ensures LastPut(puts, puts[i].key) == Some(puts[i].value)
    decreases |puts|
  {
    if i < |puts| - 1 {
      var front := puts[..|puts| - 1];
      assert front[i] == puts[i];
      LastPutAt(front, i);
    }
  }

  lemma {:induction false} ApplySnoc(prefs: Store, puts: seq<Put>, p: Put)
    ensures Apply(prefs, puts + [p]) == Apply(prefs, puts)[p.key := p.value]
    decreases |puts|
  {
    if |puts| > 0 {
      assert (puts + [p])[1..] == puts[1..] + [p];
      ApplySnoc(prefs[puts[0].key := puts[0].value], puts[1..], p);
    }
  }

  /** Committing an editor: the last put of a key wins, and a key that was
      never put keeps its old value (or stays absent). */
  lemma {:induction false} ApplyLastWins(prefs: Store, puts: seq<Put>, key: string)
    ensures LastPut(puts, key).Some? ==>
      key in Apply(prefs, puts) && Apply(prefs, puts)[key] == LastPut(puts, key).value
    ensures LastPut(puts, key).None? ==>
      (key in Apply(prefs, puts) <==> key in prefs) &&
      (key in prefs ==> Apply(prefs, puts)[key] == prefs[key])
    decreases |puts|
  {
    if |puts| > 0 {
      var front := puts[..|puts| - 1];
      var last := puts[|puts| - 1];
      assert front + [last] == puts;
      ApplySnoc(prefs, front, last);
      ApplyLastWins(prefs, front, key);
    }
  }

  /** `getString` after the commit, in the same terms. */
  lemma GetStringAfterApply(prefs: Store, puts: seq<Put>, key: string, default: string)
    ensures GetString(Apply(prefs, puts), key, default) ==
      LastPut(puts, key).GetOr(GetString(prefs, key, default))
  {
    ApplyLastWins(prefs, puts, key);
  }

  /** Two puts of one key: the second overwrites the first. */
  lemma ApplyOverwrite(prefs: Store, key: string, first: string, second: string)
    ensures Apply(prefs, [Put(key, first), Put(key, second)]) == prefs[key := second]
  {
    var puts := [Put(key, first), Put(key, second)];
    var once := prefs[key := first];
    assert puts[1..] == [Put(key, second)] && [Put(key, second)][1..] == [];
    assert Apply(prefs, puts) == Apply(once, [Put(key, second)]);
    assert Apply(once, [Put(key, second)]) == Apply(once[key := second], []);
    assert once[key := second] == prefs[key := second];
  }
}

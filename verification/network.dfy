/** Picking the machine's LAN address from its network interfaces, and the
    interface filter the device discovery shares. The operating system's
    interface table is a parameter: entries in key order, each with its
    alias list or `None` where the table holds `undefined`. */
module Network {
  import opened Wrappers
  import opened Seqs

  datatype Alias = Alias(address: string, family: string, internal: bool)

  type Interfaces = seq<(string, Option<seq<Alias>>)>

  /** A non-internal IPv4 alias. */
  predicate Qualifies(a: Alias) {
    a.family == "IPv4" && !a.internal
  }

  /** The aliases of one interface; an undefined list has none. */
  function AliasesOf(entry: (string, Option<seq<Alias>>)): seq<Alias> {
    entry.1.GetOr([])
  }

  /** The qualifying aliases, interfaces in key order and aliases in list order. */
  function QualifyingAliases(ifaces: Interfaces): (r: seq<Alias>)
    ensures forall i | 0 <= i < |r| :: Qualifies(r[i])
  {
    if |ifaces| == 0 then []
    else QualifyingAliases(ifaces[..|ifaces| - 1]) + Filter(AliasesOf(ifaces[|ifaces| - 1]), Qualifies)
  }

  /** The qualifying aliases of a prefix of the table come first. */
  lemma {:induction false} QualifyingPrefix(ifaces: Interfaces, n: nat)
    requires n <= |ifaces|
    ensures QualifyingAliases(ifaces[..n]) <= QualifyingAliases(ifaces)
    decreases |ifaces| - n
  {
    if n < |ifaces| {
      QualifyingPrefix(ifaces, n + 1);
      assert ifaces[..n + 1][..n] == ifaces[..n];
    } else {
      assert ifaces[..n] == ifaces;
    }
  }

  /** An alias qualifies for the scan exactly when it is a qualifying alias
      listed by some interface. */
  lemma {:induction false} QualifyingMembership(ifaces: Interfaces, a: Alias)
    ensures a in QualifyingAliases(ifaces) <==> Qualifies(a) && exists i | 0 <= i < |ifaces| :: a in AliasesOf(ifaces[i])
  {
    if |ifaces| > 0 {
      var front := ifaces[..|ifaces| - 1];
      var last := ifaces[|ifaces| - 1];
      QualifyingMembership(front, a);
      FilterMembership(AliasesOf(last), Qualifies, a);
      assert forall i | 0 <= i < |front| :: front[i] == ifaces[i];
      if Qualifies(a) && exists i | 0 <= i < |ifaces| :: a in AliasesOf(ifaces[i]) {
        var i :| 0 <= i < |ifaces| && a in AliasesOf(ifaces[i]);
        if i < |front| {
          assert a in AliasesOf(front[i]);
        }
      }
    }
  }

  /** The scan of one alias list: its first qualifying alias, if any. */
  method FirstQualifying(aliases: seq<Alias>) returns (found: Option<Alias>)
    ensures found.None? <==> Filter(aliases, Qualifies) == []
    ensures found.Some? ==> found.value == Filter(aliases, Qualifies)[0]
  {
    for j := 0 to |aliases|
      invariant Filter(aliases[..j], Qualifies) == []
    {
      var a := aliases[j];
      assert aliases[..j + 1] == aliases[..j] + [a];
      if Qualifies(a) {
        SplitAt(aliases, j);
        FirstKept(aliases[..j], a, aliases[j + 1..]);
        return Some(a);
      }
      SkipRejected(aliases[..j], a);
    }
    assert aliases[..|aliases|] == aliases;
    return None;
  }

  /** A sequence is its prefix, the element at the split, and the rest. */
  lemma SplitAt(s: seq<Alias>, j: nat)
    requires j < |s|
    ensures s == s[..j] + [s[j]] + s[j + 1..]
  {
  }

  /** After a prefix with nothing qualifying, a qualifying alias is the
      first the filter keeps. */
  lemma FirstKept(pre: seq<Alias>, a: Alias, post: seq<Alias>)
    requires Filter(pre, Qualifies) == [] && Qualifies(a)
    ensures var f := Filter(pre + [a] + post, Qualifies); |f| > 0 && f[0] == a
  {
    FilterAppend(pre, [a], Qualifies);
    assert Filter([a], Qualifies) == [a];
    FilterAppend(pre + [a], post, Qualifies);
  }

  /** A prefix with nothing qualifying stays so when a non-qualifying alias follows. */
  lemma SkipRejected(pre: seq<Alias>, a: Alias)
    requires Filter(pre, Qualifies) == [] && !Qualifies(a)
    ensures Filter(pre + [a], Qualifies) == []
  {
    FilterAppend(pre, [a], Qualifies);
    assert Filter([a], Qualifies) == [];
  }

  /** The address `getLocalIp` picks, stated over the qualifying aliases. */
  function LocalIp(ifaces: Interfaces): string {
    var q := QualifyingAliases(ifaces);
    if |q| == 0 then "localhost" else q[0].address
  }

  /** `getLocalIp`: the first qualifying address, or "localhost". */
  method GetLocalIp(ifaces: Interfaces) returns (ip: string)
    ensures ip == LocalIp(ifaces)
    ensures |QualifyingAliases(ifaces)| == 0 ==> ip == "localhost"
    ensures |QualifyingAliases(ifaces)| > 0 ==> ip == QualifyingAliases(ifaces)[0].address
  {
    for i := 0 to |ifaces|
      invariant QualifyingAliases(ifaces[..i]) == []
    {
      assert ifaces[..i + 1][..i] == ifaces[..i];
      if ifaces[i].1.Some? {
        var found := FirstQualifying(ifaces[i].1.value);
        if found.Some? {
          QualifyingPrefix(ifaces, i + 1);
          return found.value.address;
        }
      }
    }
    assert ifaces[..|ifaces|] == ifaces;
    return "localhost";
  }
}

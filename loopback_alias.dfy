/**
 * `get_lo_alias_addr`: find an interface that carries 127.0.0.1 together
 * with another IPv4 address, and return that other address. The interface
 * list, which the source asks of the operating system, is an input here.
 */
module LoopbackAlias {
  import opened Wrappers

  const Loopback := "127.0.0.1"

  /**
   * One interface: its name and, when it has IPv4 addresses at all, the
   * `addr` field of each of them (which may be missing).
   */
  datatype Interface = Interface(name: string, inet: Option<seq<Option<string>>>)

  /** An address other than the loopback one that the inner loop collects: present, non-empty. */
  predicate IsAlias(a: Option<string>)
  {
    a.Some? && a.value != Loopback && a.value != ""
  }

  /** The collected addresses `ip_addresses`, in listing order. */
  function Aliases(addrs: seq<Option<string>>): (r: seq<string>)
    ensures |r| <= |addrs|
  {
    if addrs == [] then []
    else
      var last := addrs[|addrs| - 1];
      Aliases(addrs[..|addrs| - 1]) + (if IsAlias(last) then [last.value] else [])
  }

  predicate HasLoopback(addrs: seq<Option<string>>)
  {
    exists i | 0 <= i < |addrs| :: addrs[i] == Some(Loopback)
  }

  /**
   * The outer loop from interface `ifaces[0]` on, with `lo` the value of
   * `ifname_loopback` so far: it survives from one interface to the next.
   */
  function AliasFrom(ifaces: seq<Interface>, lo: Option<string>): Option<string>
  {
    if ifaces == [] then None
    else
      var itf := ifaces[0];
      if itf.inet.None? then AliasFrom(ifaces[1..], lo)
      else
        var lo' := if HasLoopback(itf.inet.value) then Some(itf.name) else lo;
        var found := Aliases(itf.inet.value);
        if lo' == Some(itf.name) && found != [] then Some(found[0])
        else AliasFrom(ifaces[1..], lo')
  }

  /**
   * The collected addresses are exactly the listed ones that are neither
   * missing, empty nor the loopback address, and the first of them is the
   * first such address in the listing.
   */
  lemma {:induction false} AliasesAreListedAliases(addrs: seq<Option<string>>)
    ensures forall x :: x in Aliases(addrs) <==> IsAlias(Some(x)) && Some(x) in addrs
    ensures Aliases(addrs) != [] ==>
      exists k | 0 <= k < |addrs| :: IsAlias(addrs[k]) && Aliases(addrs)[0] == addrs[k].value && forall j | 0 <= j < k :: !IsAlias(addrs[j])
  {
    if addrs != [] {
      var front := addrs[..|addrs| - 1];
      var last := addrs[|addrs| - 1];
      AliasesAreListedAliases(front);
      assert addrs == front + [last];
      AliasesAppend(front, last);
      forall x ensures x in Aliases(addrs) <==> IsAlias(Some(x)) && Some(x) in addrs {
        assert Some(x) in addrs <==> Some(x) in front || Some(x) == last;
      }
      if Aliases(front) != [] {
        var k :| 0 <= k < |front| && IsAlias(front[k]) && Aliases(front)[0] == front[k].value && forall j | 0 <= j < k :: !IsAlias(front[j]);
        assert addrs[k] == front[k];
      } else if IsAlias(last) {
        forall j | 0 <= j < |front| ensures !IsAlias(addrs[j]) {
          assert addrs[j] == front[j];
        }
      }
    }
  }

  lemma AliasesAppend(addrs: seq<Option<string>>, a: Option<string>)
    ensures Aliases(addrs + [a]) == Aliases(addrs) + (if IsAlias(a) then [a.value] else [])
  {
    assert (addrs + [a])[..|addrs|] == addrs;
  }

  /** One turn of the outer loop, as `AliasFrom` takes it. */
  lemma AliasFromStep(ifaces: seq<Interface>, k: nat, lo: Option<string>)
    requires k < |ifaces|
    ensures var itf := ifaces[k];
      AliasFrom(ifaces[k..], lo) ==
        if itf.inet.None? then AliasFrom(ifaces[k + 1..], lo)
        else
          var lo' := if HasLoopback(itf.inet.value) then Some(itf.name) else lo;
          var found := Aliases(itf.inet.value);
          if lo' == Some(itf.name) && found != [] then Some(found[0])
          else AliasFrom(ifaces[k + 1..], lo')
  {
    assert ifaces[k..][0] == ifaces[k] && ifaces[k..][1..] == ifaces[k + 1..];
  }

  lemma HasLoopbackAppend(addrs: seq<Option<string>>, a: Option<string>)
    ensures HasLoopback(addrs + [a]) <==> HasLoopback(addrs) || a == Some(Loopback)
  {
    if HasLoopback(addrs + [a]) {
      var i :| 0 <= i < |addrs| + 1 && (addrs + [a])[i] == Some(Loopback);
      if i < |addrs| { assert addrs[i] == Some(Loopback); }
    }
    if HasLoopback(addrs) {
      var i :| 0 <= i < |addrs| && addrs[i] == Some(Loopback);
      assert (addrs + [a])[i] == Some(Loopback);
    }
    if a == Some(Loopback) { assert (addrs + [a])[|addrs|] == Some(Loopback); }
  }

  /** The source's nested loops. */
  method GetLoAliasAddr(ifaces: seq<Interface>) returns (r: Option<string>)
    ensures r == AliasFrom(ifaces, None)
  {
    var loopbackName: Option<string> := None;
    var k := 0;
    while k < |ifaces|
      invariant 0 <= k <= |ifaces|
      invariant AliasFrom(ifaces, None) == AliasFrom(ifaces[k..], loopbackName)
    {
      var itf := ifaces[k];
      AliasFromStep(ifaces, k, loopbackName);
      if itf.inet.None? {
        k := k + 1;
        continue;
      }
      var addrs := itf.inet.value;
      var ipAddresses: seq<string> := [];
      ghost var lo0 := loopbackName;
      var j := 0;
      while j < |addrs|
        invariant 0 <= j <= |addrs|
        invariant ipAddresses == Aliases(addrs[..j])
        invariant loopbackName == if HasLoopback(addrs[..j]) then Some(itf.name) else lo0
      {
        assert addrs[..j + 1] == addrs[..j] + [addrs[j]];
        AliasesAppend(addrs[..j], addrs[j]);
        if addrs[j] == Some(Loopback) {
          loopbackName := Some(itf.name);
        } else if addrs[j].Some? && addrs[j].value != "" {
          ipAddresses := ipAddresses + [addrs[j].value];
        }
        HasLoopbackAppend(addrs[..j], addrs[j]);
        j := j + 1;
      }
      assert addrs[..|addrs|] == addrs;
      if loopbackName == Some(itf.name) && ipAddresses != [] {
        return Some(ipAddresses[0]);
      }
      k := k + 1;
    }
    return None;
  }

  // ---------------------------------------------------------------------
  // Reference definition

  /** An interface that by itself carries the loopback address and an alias. */
  predicate Qualifies(itf: Interface)
  {
    itf.inet.Some? && HasLoopback(itf.inet.value) && Aliases(itf.inet.value) != []
  }

  /** The first alias of the first qualifying interface. */
  function FirstAlias(ifaces: seq<Interface>): (r: Option<string>)
    ensures r.Some? <==> exists k | 0 <= k < |ifaces| :: Qualifies(ifaces[k])
  {
    if ifaces == [] then None
    else if Qualifies(ifaces[0]) then Some(Aliases(ifaces[0].inet.value)[0])
    else
      var r := FirstAlias(ifaces[1..]);
      assert forall k | 1 <= k < |ifaces| :: ifaces[k] == ifaces[1..][k - 1];
      assert (exists k | 0 <= k < |ifaces[1..]| :: Qualifies(ifaces[1..][k])) ==> exists k | 0 <= k < |ifaces| :: Qualifies(ifaces[k]);
      r
  }

  predicate NamesDistinct(ifaces: seq<Interface>)
  {
    forall i, j | 0 <= i < j < |ifaces| :: ifaces[i].name != ifaces[j].name
  }

  /**
   * With distinct interface names (as the operating system reports them),
   * the loops return the first alias of the first interface that carries
   * both the loopback address and an alias, and nothing when there is none.
   */
  lemma {:induction false} AliasIsFirstQualifying(ifaces: seq<Interface>, lo: Option<string>)
    requires NamesDistinct(ifaces)
    requires lo.Some? ==> forall k | 0 <= k < |ifaces| :: ifaces[k].name != lo.value
    ensures AliasFrom(ifaces, lo) == FirstAlias(ifaces)
  {
    if ifaces != [] {
      var itf := ifaces[0];
      var rest := ifaces[1..];
      assert forall k | 0 <= k < |rest| :: rest[k] == ifaces[k + 1];
      assert NamesDistinct(rest);
      if itf.inet.Some? {
        var lo' := if HasLoopback(itf.inet.value) then Some(itf.name) else lo;
        AliasIsFirstQualifying(rest, lo');
      } else {
        AliasIsFirstQualifying(rest, lo);
      }
    }
  }

  lemma GetLoAliasAddrIsFirstQualifying(ifaces: seq<Interface>)
    requires NamesDistinct(ifaces)
    ensures AliasFrom(ifaces, None) == FirstAlias(ifaces)
  {
    AliasIsFirstQualifying(ifaces, None);
  }
}

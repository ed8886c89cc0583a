/** `FallbackNodeSelector` (allthethings/extensions.py): the Elasticsearch
    node selector that prefers the configured nodes in order and only falls
    back to a later one when no live node carries an earlier one. The random
    draw that occasionally reverses the preference is the `reverse` input. */
module NodeSelector {
  import opened Wrappers

  /** A live node of the client's pool: the configuration it was made from,
      and which connection it is. */
  datatype Node<C> = Node(config: C, id: nat)

  datatype SelectError = NoNodeConfigFound

  /** The elements of `s` last to first. */
  function Reversed<T>(s: seq<T>): (r: seq<T>)
    ensures |r| == |s|
    ensures forall i :: 0 <= i < |s| ==> r[i] == s[|s| - 1 - i]
  {
    if s == [] then [] else Reversed(s[1..]) + [s[0]]
  }

  lemma ReversedSameElements<T>(s: seq<T>, x: T)
    ensures x in Reversed(s) <==> x in s
  {
    if x in s {
      var i :| 0 <= i < |s| && s[i] == x;
      assert Reversed(s)[|s| - 1 - i] == x;
    }
  }

  /** The order in which the configurations are tried. */
  function Preference<C>(configs: seq<C>, reverse: bool): seq<C> {
    if reverse then Reversed(configs) else configs
  }

  /** The first node, in pool order, made from configuration `c`. */
  function FirstCarrier<C(==)>(nodes: seq<Node<C>>, c: C): Option<Node<C>> {
    if nodes == [] then None
    else if nodes[0].config == c then Some(nodes[0])
    else FirstCarrier(nodes[1..], c)
  }

  /** The node the selector picks: the first node of the earliest preferred
      configuration that some node carries. */
  function FirstLive<C(==)>(prefs: seq<C>, nodes: seq<Node<C>>): Option<Node<C>> {
    if prefs == [] then None
    else match FirstCarrier(nodes, prefs[0])
      case Some(n) => Some(n)
      case None => FirstLive(prefs[1..], nodes)
  }

  /** Some node is made from any of the configurations. */
  predicate AnyCarried<C(==)>(prefs: seq<C>, nodes: seq<Node<C>>) {
    exists i, j :: 0 <= i < |prefs| && 0 <= j < |nodes| && nodes[j].config == prefs[i]
  }

  lemma {:induction false} FirstCarrierFinds<C>(nodes: seq<Node<C>>, c: C)
    ensures FirstCarrier(nodes, c).Some? <==> exists j :: 0 <= j < |nodes| && nodes[j].config == c
    ensures FirstCarrier(nodes, c).Some? ==>
      exists j :: 0 <= j < |nodes| && nodes[j] == FirstCarrier(nodes, c).value && nodes[j].config == c &&
                  forall k :: 0 <= k < j ==> nodes[k].config != c
  {
    if nodes != [] && nodes[0].config != c {
      FirstCarrierFinds(nodes[1..], c);
      if exists j :: 0 <= j < |nodes| && nodes[j].config == c {
        var j :| 0 <= j < |nodes| && nodes[j].config == c;
        assert nodes[1..][j - 1] == nodes[j];
      }
      if FirstCarrier(nodes, c).Some? {
        var j :| 0 <= j < |nodes[1..]| && nodes[1..][j] == FirstCarrier(nodes, c).value &&
                 nodes[1..][j].config == c && forall k :: 0 <= k < j ==> nodes[1..][k].config != c;
        assert nodes[j + 1] == nodes[1..][j];
        forall k | 0 <= k < j + 1 ensures nodes[k].config != c {
          if k > 0 {
            assert nodes[k] == nodes[1..][k - 1];
          }
        }
      }
    }
  }

  /** The selector finds a node exactly when some node carries one of the
      configurations; the node it returns is the first node of the earliest
      carried configuration. */
  lemma {:induction false} FirstLiveIsEarliest<C>(prefs: seq<C>, nodes: seq<Node<C>>)
    ensures FirstLive(prefs, nodes).Some? <==> AnyCarried(prefs, nodes)
    ensures FirstLive(prefs, nodes).Some? ==>
      exists i :: 0 <= i < |prefs| && FirstCarrier(nodes, prefs[i]) == FirstLive(prefs, nodes) &&
                  forall h :: 0 <= h < i ==> FirstCarrier(nodes, prefs[h]).None?
  {
    if prefs != [] {
      FirstCarrierFinds(nodes, prefs[0]);
      FirstLiveIsEarliest(prefs[1..], nodes);
      if FirstCarrier(nodes, prefs[0]).None? {
        if AnyCarried(prefs, nodes) {
          var i, j :| 0 <= i < |prefs| && 0 <= j < |nodes| && nodes[j].config == prefs[i];
          assert i > 0;
          assert prefs[1..][i - 1] == prefs[i];
        }
        if AnyCarried(prefs[1..], nodes) {
          var i, j :| 0 <= i < |prefs[1..]| && 0 <= j < |nodes| && nodes[j].config == prefs[1..][i];
          assert prefs[i + 1] == prefs[1..][i];
        }
        if FirstLive(prefs, nodes).Some? {
          var i :| 0 <= i < |prefs[1..]| && FirstCarrier(nodes, prefs[1..][i]) == FirstLive(prefs, nodes) &&
                   forall h :: 0 <= h < i ==> FirstCarrier(nodes, prefs[1..][h]).None?;
          assert prefs[i + 1] == prefs[1..][i];
          forall h | 0 <= h < i + 1 ensures FirstCarrier(nodes, prefs[h]).None? {
            if h > 0 {
              assert prefs[h] == prefs[1..][h - 1];
            }
          }
        }
      } else {
        var j :| 0 <= j < |nodes| && nodes[j].config == prefs[0];
        assert AnyCarried(prefs, nodes);
      }
    }
  }

  /** The returned node is one of the live nodes, and its configuration is
      one of the selector's configurations, whichever way round they are
      tried. */
  lemma FirstLiveIsMember<C>(configs: seq<C>, reverse: bool, nodes: seq<Node<C>>)
    requires FirstLive(Preference(configs, reverse), nodes).Some?
    ensures FirstLive(Preference(configs, reverse), nodes).value in nodes
    ensures FirstLive(Preference(configs, reverse), nodes).value.config in configs
  {
    var prefs := Preference(configs, reverse);
    FirstLiveIsEarliest(prefs, nodes);
    var i :| 0 <= i < |prefs| && FirstCarrier(nodes, prefs[i]) == FirstLive(prefs, nodes);
    FirstCarrierFinds(nodes, prefs[i]);
    ReversedSameElements(configs, prefs[i]);
  }

  /** Whether a live node exists does not depend on the coin: reversing the
      preference changes which node is picked, never whether one is. */
  lemma ReverseKeepsAvailability<C>(configs: seq<C>, nodes: seq<Node<C>>)
    ensures FirstLive(Reversed(configs), nodes).Some? <==> FirstLive(configs, nodes).Some?
  {
    FirstLiveIsEarliest(configs, nodes);
    FirstLiveIsEarliest(Reversed(configs), nodes);
    var r := Reversed(configs);
    if AnyCarried(configs, nodes) {
      var i, j :| 0 <= i < |configs| && 0 <= j < |nodes| && nodes[j].config == configs[i];
      assert r[|configs| - 1 - i] == configs[i];
    }
    if AnyCarried(r, nodes) {
      var i, j :| 0 <= i < |r| && 0 <= j < |nodes| && nodes[j].config == r[i];
      assert r[i] == configs[|configs| - 1 - i];
    }
  }

  /** `list.reverse()` on the selector's local copy. */
  method ReverseInPlace<C>(a: array<C>)
    modifies a
    ensures a[..] == Reversed(old(a[..]))
  {
    var lo, hi := 0, a.Length - 1;
    while lo < hi
      invariant 0 <= lo <= a.Length && -1 <= hi < a.Length && lo + hi == a.Length - 1
      invariant forall k :: 0 <= k < lo ==> a[k] == old(a[a.Length - 1 - k])
      invariant forall k :: hi < k < a.Length ==> a[k] == old(a[a.Length - 1 - k])
      invariant forall k :: lo <= k <= hi ==> a[k] == old(a[k])
    {
      a[lo], a[hi] := a[hi], a[lo];
      lo, hi := lo + 1, hi - 1;
    }
  }

  /** The selector; its configurations are set once, at construction. */
  class FallbackNodeSelector<C(==)> {
    var nodeConfigs: seq<C>

    constructor(nodeConfigs: seq<C>)
      ensures this.nodeConfigs == nodeConfigs
    {
      this.nodeConfigs := nodeConfigs;
    }

    /** `select`: tries the configurations in order (reversed when `reverse`
        is set), and for each the nodes in pool order; the first node made
        from the configuration wins. With no such node it fails. It has no
        `modifies` clause: `nodeConfigs` is only copied, never changed. */
    method Select(nodes: seq<Node<C>>, reverse: bool) returns (r: Result<Node<C>, SelectError>)
      ensures r.Ok? <==> FirstLive(Preference(nodeConfigs, reverse), nodes).Some?
      ensures r.Ok? ==> r.value == FirstLive(Preference(nodeConfigs, reverse), nodes).value
      ensures r.Ok? ==> r.value in nodes && r.value.config in nodeConfigs
      ensures r.Err? ==> !AnyCarried(nodeConfigs, nodes)
    {
      var own := nodeConfigs;
      var configs := new C[|own|](i requires 0 <= i < |own| => own[i]);
      assert configs[..] == own;
      if reverse {
        ReverseInPlace(configs);
      }
      ghost var prefs := configs[..];
      assert prefs == Preference(own, reverse);
      var i := 0;
      while i < configs.Length
        invariant 0 <= i <= configs.Length && configs[..] == prefs
        invariant FirstLive(prefs[i..], nodes) == FirstLive(prefs, nodes)
      {
        var j := 0;
        while j < |nodes|
          invariant 0 <= j <= |nodes|
          invariant FirstCarrier(nodes[j..], configs[i]) == FirstCarrier(nodes, configs[i])
        {
          if nodes[j].config == configs[i] {
            assert FirstCarrier(nodes[j..], configs[i]) == Some(nodes[j]);
            r := Ok(nodes[j]);
            FirstLiveIsMember(own, reverse, nodes);
            return;
          }
          assert nodes[j..][1..] == nodes[j + 1..];
          j := j + 1;
        }
        assert prefs[i..][1..] == prefs[i + 1..];
        i := i + 1;
      }
      r := Err(NoNodeConfigFound);
      FirstLiveIsEarliest(prefs, nodes);
      ReverseKeepsAvailability(own, nodes);
      FirstLiveIsEarliest(own, nodes);
    }
  }
}

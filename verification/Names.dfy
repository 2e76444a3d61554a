/** The naming functions of api/v1/meta_types.go and of the Cloudflare client, and why distinct
    objects get distinct names. */
module Names {
  import opened Base

  datatype GatewayKey = GatewayKey(namespace: string, name: string)

  const GROUP := "cloudflare-gateway-controller.io"
  const CLASS_FINALIZER := "gateway-exists-finalizer.gateway.networking.k8s.io"

  /** TunnelName */
  function TunnelName(cluster: string, gw: GatewayKey): string {
    GROUP + "/clusters/" + cluster + "/namespaces/" + gw.namespace + "/gateways/" + gw.name
  }

  /** FinalizerGatewayClass */
  function FinalizerGatewayClass(gw: GatewayKey): string {
    CLASS_FINALIZER + "/" + gw.name + "." + gw.namespace
  }

  /** GatewayReplicaName */
  function GatewayReplicaName(gw: GatewayKey, replica: string): string {
    "gateway-" + gw.name + "-" + replica
  }

  /** cloudflare.TunnelTarget */
  function TunnelTarget(tunnelID: string): string {
    tunnelID + ".cfargotunnel.com"
  }

  lemma SamePrefix(p: string, a: string, b: string)
    requires p + a == p + b
    ensures a == b
  {
    assert (p + a)[|p|..] == a && (p + b)[|p|..] == b;
  }

  lemma SameSuffix(s: string, a: string, b: string)
    requires a + s == b + s
    ensures a == b
  {
    assert |a| == |b|;
    assert (a + s)[..|a|] == a && (b + s)[..|b|] == b;
  }

  /** Two texts joined by the same separator, with left parts free of its first character. */
  lemma JoinIsInjective(sep: string, a1: string, b1: string, a2: string, b2: string)
    requires sep != "" && sep[0] !in a1 && sep[0] !in a2
    requires a1 + (sep + b1) == a2 + (sep + b2)
    ensures a1 == a2 && b1 == b2
  {
    var s := a1 + (sep + b1);
    assert s == a1 + [sep[0]] + (sep[1..] + b1) && s == a2 + [sep[0]] + (sep[1..] + b2);
    CutIsUnique(s, sep[0], a1, sep[1..] + b1);
    CutIsUnique(s, sep[0], a2, sep[1..] + b2);
    SamePrefix(sep[1..], b1, b2);
  }

  lemma PathIsInjective(p: string, s: string, t: string, a1: string, b1: string, n1: string, a2: string, b2: string, n2: string)
    requires s != "" && t != "" && s[0] !in a1 && s[0] !in a2 && t[0] !in b1 && t[0] !in b2
    requires p + a1 + s + b1 + t + n1 == p + a2 + s + b2 + t + n2
    ensures a1 == a2 && b1 == b2 && n1 == n2
  {
    var r1, r2 := b1 + (t + n1), b2 + (t + n2);
    assert p + a1 + s + b1 + t + n1 == p + (a1 + (s + r1));
    assert p + a2 + s + b2 + t + n2 == p + (a2 + (s + r2));
    SamePrefix(p, a1 + (s + r1), a2 + (s + r2));
    JoinIsInjective(s, a1, r1, a2, r2);
    JoinIsInjective(t, b1, n1, b2, n2);
  }

  /** Tunnel names tell clusters, namespaces and Gateways apart, since neither cluster names nor
      namespaces hold a slash. */
  lemma TunnelNameIsInjective(c1: string, g1: GatewayKey, c2: string, g2: GatewayKey)
    requires '/' !in c1 && '/' !in c2 && '/' !in g1.namespace && '/' !in g2.namespace
    requires TunnelName(c1, g1) == TunnelName(c2, g2)
    ensures c1 == c2 && g1 == g2
  {
    PathIsInjective(GROUP + "/clusters/", "/namespaces/", "/gateways/",
                    c1, g1.namespace, g1.name, c2, g2.namespace, g2.name);
  }

  /** Finalizers tell Gateways apart, since namespaces hold no dot: the namespace is what
      follows the last one. */
  lemma FinalizerIsInjective(g1: GatewayKey, g2: GatewayKey)
    requires '.' !in g1.namespace && '.' !in g2.namespace
    requires FinalizerGatewayClass(g1) == FinalizerGatewayClass(g2)
    ensures g1 == g2
  {
    var p := CLASS_FINALIZER + "/";
    var a, b := g1.name + "." + g1.namespace, g2.name + "." + g2.namespace;
    assert FinalizerGatewayClass(g1) == p + a && FinalizerGatewayClass(g2) == p + b;
    SamePrefix(p, a, b);
    LastDot(g1.name, g1.namespace);
    LastDot(g2.name, g2.namespace);
  }

  lemma LastDot(name: string, namespace: string)
    requires '.' !in namespace
    ensures var s := name + "." + namespace;
            var i := LastIndexByte(s, '.');
            i == |name| && s[..i] == name && s[i + 1..] == namespace
  {
    var s := name + "." + namespace;
    assert s[|name|] == '.' && s[..|name|] == name && s[|name| + 1..] == namespace;
    LastIndexIs(s, '.', |name|);
  }

  /** A dotted namespace would make two Gateways share a finalizer. */
  lemma DottedNamespacesCollide()
    ensures FinalizerGatewayClass(GatewayKey("b.c", "a")) == FinalizerGatewayClass(GatewayKey("c", "a.b"))
  {
    assert "a" + "." + "b.c" == "a.b" + "." + "c";
  }

  /** The replicas of one Gateway have distinct Deployment names exactly when their own names
      are distinct. */
  lemma ReplicaNameIsInjective(gw: GatewayKey, r1: string, r2: string)
    ensures GatewayReplicaName(gw, r1) == GatewayReplicaName(gw, r2) <==> r1 == r2
  {
    var p := "gateway-" + gw.name + "-";
    if GatewayReplicaName(gw, r1) == GatewayReplicaName(gw, r2) {
      SamePrefix(p, r1, r2);
    }
  }

  lemma TunnelTargetIsInjective(id1: string, id2: string)
    ensures TunnelTarget(id1) == TunnelTarget(id2) <==> id1 == id2
  {
    if TunnelTarget(id1) == TunnelTarget(id2) {
      SameSuffix(".cfargotunnel.com", id1, id2);
    }
  }

  /** The formats. */
  lemma NameFormats(cluster: string, gw: GatewayKey, replica: string, tunnelID: string)
    ensures GatewayReplicaName(gw, replica) == "gateway-" + gw.name + "-" + replica
    ensures TunnelTarget(tunnelID) == tunnelID + ".cfargotunnel.com"
    ensures FinalizerGatewayClass(gw) == "gateway-exists-finalizer.gateway.networking.k8s.io" + "/" + gw.name + "." + gw.namespace
    ensures TunnelName(cluster, gw)
            == "cloudflare-gateway-controller.io" + "/clusters/" + cluster + "/namespaces/" + gw.namespace + "/gateways/" + gw.name
  {
    var p, t := "gateway-exists-finalizer.gateway.networking.k8s.io" + "/", gw.name + "." + gw.namespace;
    assert p + t == p + gw.name + "." + gw.namespace;
  }
}

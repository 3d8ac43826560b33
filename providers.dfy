/**
 * The embedded-resource chain behind `GetResourceStream`: the Heimdall
 * API looks a resource name up in its own assembly first, then in the
 * UsersAPI assembly, then in the HTTPAPI assembly, each under that
 * assembly's HTTPRoot prefix, and the first hit wins.
 */
module Providers {

  import opened Wrappers
  import opened Utf8
  import opened Http
  import RootResources

  /** The HTTPRoot prefix of the Heimdall API's own embedded resources. */
  const HeimdallHTTPRoot: string := "org.GraphDefined.Vanaheimr.Heimdall.API.HTTPRoot."

  datatype Assembly = HeimdallAPIAssembly | UsersAPIAssembly | HTTPAPIAssembly

  /** One provider: the prefix its resource names carry, and the assembly that holds them. */
  datatype Provider = Provider(httpRoot: string, assembly: Assembly)

  /**
   * The contents of the assemblies: `manifest(a, n)` is the resource named
   * `n` embedded in `a`, or None.
   */
  type Manifest = (Assembly, string) -> Option<seq<byte>>

  /** The provider order; the HTTPRoot values of UsersAPI and HTTPAPI belong to those libraries. */
  function ProviderChain(usersAPIRoot: string, httpAPIRoot: string): (chain: seq<Provider>)
    ensures |chain| == 3
    ensures chain[0] == Provider(HeimdallHTTPRoot, HeimdallAPIAssembly)
    ensures chain[1] == Provider(usersAPIRoot, UsersAPIAssembly)
    ensures chain[2] == Provider(httpAPIRoot, HTTPAPIAssembly)
  {
    [Provider(HeimdallHTTPRoot, HeimdallAPIAssembly),
     Provider(usersAPIRoot, UsersAPIAssembly),
     Provider(httpAPIRoot, HTTPAPIAssembly)]
  }

  /** What one provider holds under a resource name. */
  function Lookup(manifest: Manifest, provider: Provider, name: string): Option<seq<byte>>
  {
    manifest(provider.assembly, provider.httpRoot + name)
  }

  /** The first provider of the chain that holds `name`, in chain order. */
  function FirstMatch(chain: seq<Provider>, manifest: Manifest, name: string): (r: Option<seq<byte>>)
    ensures r.Some? ==> exists k :: 0 <= k < |chain| && Lookup(manifest, chain[k], name) == r
    ensures r.None? <==> forall k :: 0 <= k < |chain| ==> Lookup(manifest, chain[k], name).None?
  {
    if chain == [] then None
    else
      var hit := Lookup(manifest, chain[0], name);
      if hit.Some? then hit
      else
        var rest := FirstMatch(chain[1..], manifest, name);
        assert forall k :: 1 <= k < |chain| ==> chain[k] == chain[1..][k - 1];
        rest
  }

  /** First match wins: a provider is used exactly when none before it holds the name. */
  lemma {:induction false} FirstMatchWins(chain: seq<Provider>, manifest: Manifest, name: string, k: nat)
    requires k < |chain| && Lookup(manifest, chain[k], name).Some?
    requires forall j :: 0 <= j < k ==> Lookup(manifest, chain[j], name).None?
    ensures FirstMatch(chain, manifest, name) == Lookup(manifest, chain[k], name)
  {
    if k > 0 {
      assert Lookup(manifest, chain[0], name).None?;
      forall j | 0 <= j < k - 1 ensures Lookup(manifest, chain[1..][j], name).None? {
        assert chain[1..][j] == chain[j + 1];
      }
      FirstMatchWins(chain[1..], manifest, name, k - 1);
    }
  }

  /** `GetResourceStream(name)` of the Heimdall API. */
  function GetResourceStream(usersAPIRoot: string, httpAPIRoot: string, manifest: Manifest,
                             name: string): (r: Option<seq<byte>>)
    ensures r.None? <==>
              && manifest(HeimdallAPIAssembly, HeimdallHTTPRoot + name).None?
              && manifest(UsersAPIAssembly, usersAPIRoot + name).None?
              && manifest(HTTPAPIAssembly, httpAPIRoot + name).None?
    ensures r.Some? ==>
              || r == manifest(HeimdallAPIAssembly, HeimdallHTTPRoot + name)
              || r == manifest(UsersAPIAssembly, usersAPIRoot + name)
              || r == manifest(HTTPAPIAssembly, httpAPIRoot + name)
  {
    FirstMatch(ProviderChain(usersAPIRoot, httpAPIRoot), manifest, name)
  }

  /** A resource the Heimdall assembly embeds shadows any same-named one of the base libraries. */
  lemma HeimdallResourcesShadowBase(usersAPIRoot: string, httpAPIRoot: string, manifest: Manifest, name: string)
    requires manifest(HeimdallAPIAssembly, HeimdallHTTPRoot + name).Some?
    ensures GetResourceStream(usersAPIRoot, httpAPIRoot, manifest, name)
              == manifest(HeimdallAPIAssembly, HeimdallHTTPRoot + name)
  {
  }

  /** The HTTPAPI assembly is consulted only when neither of the others holds the name. */
  lemma HTTPAPIResourcesLast(usersAPIRoot: string, httpAPIRoot: string, manifest: Manifest, name: string)
    requires manifest(HeimdallAPIAssembly, HeimdallHTTPRoot + name).None?
    requires manifest(UsersAPIAssembly, usersAPIRoot + name).None?
    ensures GetResourceStream(usersAPIRoot, httpAPIRoot, manifest, name)
              == manifest(HTTPAPIAssembly, httpAPIRoot + name)
  {
  }

  /** The root route's services when its resource streams come from the provider chain. */
  function ChainServices(mix: string -> Option<string>, usersAPIRoot: string, httpAPIRoot: string,
                         manifest: Manifest): (services: RootResources.Resources)
    ensures services.mix == mix
    ensures forall n :: services.resource(n) == GetResourceStream(usersAPIRoot, httpAPIRoot, manifest, n)
  {
    RootResources.Resources(mix, (n: string) => GetResourceStream(usersAPIRoot, httpAPIRoot, manifest, n))
  }

  /** Served through the root route, a static resource that no assembly holds is a 404. */
  lemma MissingStaticResourceIsNotFound(parameters: Option<seq<string>>, mix: string -> Option<string>,
                                        usersAPIRoot: string, httpAPIRoot: string, manifest: Manifest,
                                        serverName: string, now: Timestamp)
    requires var name := RootResources.FilePath(parameters);
             && !RootResources.IsTemplate(name)
             && manifest(HeimdallAPIAssembly, HeimdallHTTPRoot + name).None?
             && manifest(UsersAPIAssembly, usersAPIRoot + name).None?
             && manifest(HTTPAPIAssembly, httpAPIRoot + name).None?
    ensures var services := ChainServices(mix, usersAPIRoot, httpAPIRoot, manifest);
            RootResources.HandleRoot(parameters, services, serverName, now).status == NotFound
  {
    var name := RootResources.FilePath(parameters);
    HTTPAPIResourcesLast(usersAPIRoot, httpAPIRoot, manifest, name);
  }

  /** Served through the root route, a static resource the Heimdall assembly holds is its stream. */
  lemma OwnStaticResourceIsServed(parameters: Option<seq<string>>, mix: string -> Option<string>,
                                  usersAPIRoot: string, httpAPIRoot: string, manifest: Manifest,
                                  serverName: string, now: Timestamp)
    requires var name := RootResources.FilePath(parameters);
             && !RootResources.IsTemplate(name)
             && manifest(HeimdallAPIAssembly, HeimdallHTTPRoot + name).Some?
    ensures var name := RootResources.FilePath(parameters);
            var services := ChainServices(mix, usersAPIRoot, httpAPIRoot, manifest);
            var r := RootResources.HandleRoot(parameters, services, serverName, now);
            r.status == OK && r.body == ContentStream(manifest(HeimdallAPIAssembly, HeimdallHTTPRoot + name).value)
  {
  }

}

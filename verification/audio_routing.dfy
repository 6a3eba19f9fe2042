/** The per-plugin routing registry and the role-gated handles plugins read it through. */
module AudioRouting {
  import opened Common

  type AudioFormat = string

  datatype Endpoint = Endpoint(kind: string, path: string, format: AudioFormat, bufferFrames: nat)

  datatype Role = Source | Composition | Delivery

  datatype ResolvedRouting = ResolvedRouting(write: Option<Endpoint>, read: Option<Endpoint>, format: AudioFormat,
                                             reason: string)

  /** A registered change callback is known by its number. */
  datatype PluginRouting = PluginRouting(resolved: Option<ResolvedRouting>, onChange: Option<nat>)

  type Plugins = map<string, PluginRouting>

  datatype RoutingError = EndpointNotConfigured | WrongStage | NotCompositionPlugin

  datatype Answer<T> = Ok(value: T) | Err(error: RoutingError)

  function EntryOf(plugins: Plugins, name: string): PluginRouting {
    if name in plugins then plugins[name] else PluginRouting(None, None)
  }

  function ResolvedFor(plugins: Plugins, name: string): Option<ResolvedRouting> {
    EntryOf(plugins, name).resolved
  }

  function Routed(plugins: Plugins, name: string, resolved: ResolvedRouting): Plugins {
    plugins[name := EntryOf(plugins, name).(resolved := Some(resolved))]
  }

  function Unrouted(plugins: Plugins, name: string): Plugins {
    if name in plugins then plugins[name := plugins[name].(resolved := None)] else plugins
  }

  // What a handle of the given role answers.

  function WriteAnswer(plugins: Plugins, name: string, role: Role): Answer<Endpoint> {
    if role.Delivery? then Err(WrongStage)
    else
      match ResolvedFor(plugins, name)
      case None => Err(EndpointNotConfigured)
      case Some(r) => if r.write.None? then Err(EndpointNotConfigured) else Ok(r.write.value)
  }

  function ReadAnswer(plugins: Plugins, name: string, role: Role): Answer<Endpoint> {
    if role.Source? then Err(WrongStage)
    else
      match ResolvedFor(plugins, name)
      case None => Err(EndpointNotConfigured)
      case Some(r) => if r.read.None? then Err(EndpointNotConfigured) else Ok(r.read.value)
  }

  function PairAnswer(plugins: Plugins, name: string, role: Role): Answer<(Endpoint, Endpoint)> {
    if !role.Composition? then Err(NotCompositionPlugin)
    else
      match ResolvedFor(plugins, name)
      case None => Err(EndpointNotConfigured)
      case Some(r) =>
        if r.read.None? || r.write.None? then Err(EndpointNotConfigured) else Ok((r.read.value, r.write.value))
  }

  function FormatAnswer(plugins: Plugins, name: string): Answer<AudioFormat> {
    match ResolvedFor(plugins, name)
    case None => Err(EndpointNotConfigured)
    case Some(r) => Ok(r.format)
  }

  class AudioRoutingRuntime {
    var plugins: Plugins

    constructor ()
      ensures plugins == map[]
    {
      plugins := map[];
    }

    method HandleForPlugin(name: string, role: Role) returns (handle: RouterAudioRouting)
      modifies this
      ensures plugins == old(plugins)[name := EntryOf(old(plugins), name)]
      ensures fresh(handle) && handle.runtime == this && handle.pluginName == name && handle.role == role
    {
      if name !in plugins {
        plugins := plugins[name := PluginRouting(None, None)];
      } else {
        assert plugins == plugins[name := plugins[name]];
      }
      handle := new RouterAudioRouting(this, name, role);
    }

    /** Stores the resolution; answers the one before it, and the callback to fire. */
    method PublishTopology(name: string, resolved: ResolvedRouting)
      returns (previous: Option<ResolvedRouting>, callback: Option<nat>)
      modifies this
      ensures plugins == Routed(old(plugins), name, resolved)
      ensures previous == ResolvedFor(old(plugins), name) && callback == EntryOf(old(plugins), name).onChange
    {
      var entry := if name in plugins then plugins[name] else PluginRouting(None, None);
      previous, callback := entry.resolved, entry.onChange;
      plugins := plugins[name := entry.(resolved := Some(resolved))];
    }

    method ClearTopology(name: string)
      modifies this
      ensures plugins == Unrouted(old(plugins), name)
    {
      if name in plugins {
        plugins := plugins[name := plugins[name].(resolved := None)];
      }
    }
  }

  class RouterAudioRouting {
    const runtime: AudioRoutingRuntime
    const pluginName: string
    const role: Role

    constructor (runtime: AudioRoutingRuntime, pluginName: string, role: Role)
      ensures this.runtime == runtime && this.pluginName == pluginName && this.role == role
    {
      this.runtime := runtime;
      this.pluginName := pluginName;
      this.role := role;
    }

    method WriteEndpoint() returns (r: Answer<Endpoint>)
      ensures r == WriteAnswer(runtime.plugins, pluginName, role)
    {
      if role != Source && role != Composition {
        return Err(WrongStage);
      }
      var resolved := ResolvedFor(runtime.plugins, pluginName);
      if resolved.None? || resolved.value.write.None? {
        return Err(EndpointNotConfigured);
      }
      r := Ok(resolved.value.write.value);
    }

    method ReadEndpoint() returns (r: Answer<Endpoint>)
      ensures r == ReadAnswer(runtime.plugins, pluginName, role)
    {
      if role != Delivery && role != Composition {
        return Err(WrongStage);
      }
      var resolved := ResolvedFor(runtime.plugins, pluginName);
      if resolved.None? || resolved.value.read.None? {
        return Err(EndpointNotConfigured);
      }
      r := Ok(resolved.value.read.value);
    }

    method CompositionEndpoints() returns (r: Answer<(Endpoint, Endpoint)>)
      ensures r == PairAnswer(runtime.plugins, pluginName, role)
    {
      if role != Composition {
        return Err(NotCompositionPlugin);
      }
      var resolved := ResolvedFor(runtime.plugins, pluginName);
      if resolved.None? || resolved.value.read.None? || resolved.value.write.None? {
        return Err(EndpointNotConfigured);
      }
      r := Ok((resolved.value.read.value, resolved.value.write.value));
    }

    method CurrentFormat() returns (r: Answer<AudioFormat>)
      ensures r == FormatAnswer(runtime.plugins, pluginName)
    {
      var resolved := ResolvedFor(runtime.plugins, pluginName);
      r := if resolved.Some? then Ok(resolved.value.format) else Err(EndpointNotConfigured);
    }

    method OnRouteChange(callback: Option<nat>)
      modifies runtime
      ensures var before := old(runtime.plugins);
              runtime.plugins == if pluginName in before
                                 then before[pluginName := before[pluginName].(onChange := callback)] else before
    {
      if pluginName in runtime.plugins {
        runtime.plugins := runtime.plugins[pluginName := runtime.plugins[pluginName].(onChange := callback)];
      }
    }
  }
}

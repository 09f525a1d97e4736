/**
 * The single runtime slot behind `toggle_local_server`
 * (src-tauri/src/lib.rs): at most one LAN server runs at a time, and any
 * running one is signalled to shut down and awaited before the slot is
 * refilled or left empty. Whether the database is ready and whether binding
 * the port succeeds are inputs; the server itself is left out.
 */
module LocalServer {
  import opened Wrappers
  import opened Numbers

  /** A spawned server: the port it listens on and a tag telling launches apart. */
  datatype Runtime = Runtime(port: int, launch: nat)

  const PortRequired := "端口必须大于 0"
  const ServerClosed := "局域网共享服务已关闭"
  const DatabaseNotReady := "数据库尚未就绪，请稍后重试。"

  function StartFailed(port: int, bindError: string): string {
    "启动局域网服务失败（端口 " + FormatInt(port) + "）: " + bindError
  }

  function Started(port: int): string {
    "局域网共享服务已启动，端口 " + FormatInt(port)
  }

  /** The list holding the one value of an option, or nothing. */
  function OptionList<T>(o: Option<T>): (r: seq<T>)
    ensures o.Some? ==> r == [o.value]
    ensures o.None? ==> r == []
  {
    if o.Some? then [o.value] else []
  }

  /** The mutex-guarded `LocalServerState` together with the history of launches. */
  class ServerSlot {
    /** `state.runtime`: the server currently installed, if any. */
    var runtime: Option<Runtime>
    /** Every runtime ever installed, in order. */
    var launched: seq<Runtime>
    /** Every runtime signalled to shut down and awaited, in order. */
    var retired: seq<Runtime>

    /** Every launched runtime but the installed one has been retired: at most one server is live. */
    ghost predicate Valid()
      reads this
    {
      launched == retired + OptionList(runtime)
    }

    constructor ()
      ensures Valid() && runtime == None && launched == [] && retired == []
    {
      runtime := None;
      launched := [];
      retired := [];
    }

    /**
     * `toggle_local_server(enable, port)`. Port 0 is refused before the slot
     * is touched; otherwise the stored runtime is taken out and retired, and
     * then, when enabling, a new one is installed if the database is ready and
     * the port binds (`bind` carries the bind error, if any).
     */
    method Toggle(enable: bool, port: int, dbReady: bool, bind: Option<string>, launch: nat)
      returns (r: Result<string, string>)
      requires 0 <= port < 0x1_0000
      requires Valid()
      modifies this
      ensures Valid()
      ensures port == 0 ==> r == Err(PortRequired) && runtime == old(runtime)
      ensures port == 0 ==> retired == old(retired) && launched == old(launched)
      ensures port != 0 ==> retired == old(retired) + OptionList(old(runtime))
      ensures port != 0 && !enable ==> r == Ok(ServerClosed) && runtime == None
      ensures port != 0 && enable && !dbReady ==> r == Err(DatabaseNotReady) && runtime == None
      ensures port != 0 && enable && dbReady && bind.Some? ==> r == Err(StartFailed(port, bind.value)) && runtime == None
      ensures port != 0 && enable && dbReady && bind.None? ==>
        r == Ok(Started(port)) && runtime == Some(Runtime(port, launch))
      ensures port != 0 && enable && dbReady && bind.None? ==>
        launched == old(launched) + [Runtime(port, launch)]
      ensures r.Err? || !enable ==> launched == old(launched)
    {
      if port == 0 {
        return Err(PortRequired);
      }
      var previous := runtime;
      runtime := None;
      if previous.Some? {
        retired := retired + [previous.value];
      }
      assert launched == retired + OptionList(runtime);
      if !enable {
        return Ok(ServerClosed);
      }
      if !dbReady {
        return Err(DatabaseNotReady);
      }
      if bind.Some? {
        return Err(StartFailed(port, bind.value));
      }
      runtime := Some(Runtime(port, launch));
      launched := launched + [Runtime(port, launch)];
      r := Ok(Started(port));
    }
  }
}

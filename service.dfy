/**
 * The ThinkPHP service of the scan-login package: the route closure of
 * `Service::boot` for `/iyuu/scan/login/:driver`, `getAlias`, and the
 * default container bindings `$bind`.
 *
 * The closure is a chain of guards with early returns. The container is
 * modelled by its binding table (alias to the class it makes), and the
 * driver's `handle` by a parameter, so that the route's answer is stated
 * for every driver and every table.
 */
module Service {
  import opened Php

  /** `NAMESPACE_IYUU_SCAN_LOGIN_DRIVER`: the prefix of every driver alias. */
  const DriverNamespace: string := "iyuu.scan-login.driver."

  /** `getAlias($driver)`: the container alias of a driver name. */
  function Alias(driver: string): (alias: string)
    ensures |alias| == |DriverNamespace| + |driver|
    ensures alias[..|DriverNamespace|] == DriverNamespace
    ensures alias[|DriverNamespace|..] == driver
  {
    DriverNamespace + driver
  }

  /** The driver name an alias stands for, if it carries the driver prefix. */
  function DriverOf(alias: string): Option<string>
  {
    if |DriverNamespace| <= |alias| && alias[..|DriverNamespace|] == DriverNamespace
    then Some(alias[|DriverNamespace|..])
    else None
  }

  /** Every alias knows its driver name back. */
  lemma AliasRoundTrip(driver: string)
    ensures DriverOf(Alias(driver)) == Some(driver)
  {
  }

  /** Every alias-shaped string is the alias of the name it carries. */
  lemma DriverOfRoundTrip(alias: string)
    requires DriverOf(alias).Some?
    ensures Alias(DriverOf(alias).value) == alias
  {
    assert alias == alias[..|DriverNamespace|] + alias[|DriverNamespace|..];
  }

  /** Distinct driver names give distinct aliases. */
  lemma AliasInjective(d1: string, d2: string)
    ensures Alias(d1) == Alias(d2) <==> d1 == d2
  {
    if Alias(d1) == Alias(d2) {
      AliasRoundTrip(d1);
      AliasRoundTrip(d2);
    }
  }

  /** What the container makes for an alias: a class, and whether it implements `Driver`. */
  datatype Binding = Binding(className: string, isDriver: bool)

  /** `Crmeb implements Driver`. */
  const CrmebBinding: Binding := Binding("Iyuu\\ScanLogin\\Driver\\Crmeb", true)

  /** The default `$bind`: only the CRMEB driver, under its alias. */
  function DefaultBind(): (bind: map<string, Binding>)
    ensures bind.Keys == {DriverNamespace + "crmeb"}
    ensures forall alias :: alias in bind ==> bind[alias].isDriver && DriverOf(alias) == Some("crmeb")
  {
    map[Alias("crmeb") := CrmebBinding]
  }

  /** The headers of the CORS preflight answer. */
  const CorsHeaders: seq<(string, string)> := [
    ("Access-Control-Allow-Origin", "*"),
    ("Access-Control-Allow-Headers", "*"),
    ("Access-Control-Allow-Methods", "*"),
    ("Access-Control-Max-Age", "1728000"),
    ("Access-Control-Allow-Credentials", "true")
  ]

  /**
   * What the route closure returns: a plain response (the preflight answer),
   * a JSON body `{code, msg}`, or whatever the driver's `handle` returned.
   */
  datatype Reply<R> =
    | Plain(status: int, body: string, headers: seq<(string, string)>)
    | Json(code: int, msg: string)
    | Handled(result: R)

  const BadNameMessage: string := "登录驱动名称只能为字母数字"
  const UnknownDriverMessage: string := "暂未支持的登录驱动名称"
  const NotADriverMessage: string := "登录驱动未实现接口，请联系开发者"

  /** The route closure, for the request method (`$request->method(true)`) and the `:driver` segment. */
  function Route<R>(httpMethod: string, driver: string, bind: map<string, Binding>, handle: Binding -> R): (r: Reply<R>)
    ensures r.Plain? <==> httpMethod == "OPTIONS"
    ensures r.Json? ==> r.code == 400 || r.code == 404 || r.code == 500
    ensures r.Handled? ==>
      CtypeAlnum(driver) && Alias(driver) in bind && bind[Alias(driver)].isDriver &&
      r.result == handle(bind[Alias(driver)])
  {
    if httpMethod == "OPTIONS" then Plain(200, "ok", CorsHeaders)
    else if !CtypeAlnum(driver) then Json(400, BadNameMessage)
    else
      var alias := Alias(driver);
      if alias !in bind then Json(404, UnknownDriverMessage)
      else if bind[alias].isDriver then Handled(handle(bind[alias]))
      else Json(500, NotADriverMessage)
  }

  /**
   * The route's guard chain, branch by branch: a preflight is answered with
   * 200 "ok" and the CORS headers; then a name that is not alphanumeric gives
   * 400; an unbound alias 404; a bound class that is not a `Driver` 500; and
   * otherwise the answer is exactly what the driver's `handle` returned.
   */
  lemma RouteBranches<R>(httpMethod: string, driver: string, bind: map<string, Binding>, handle: Binding -> R)
    ensures httpMethod == "OPTIONS" ==> Route(httpMethod, driver, bind, handle) == Plain(200, "ok", CorsHeaders)
    ensures httpMethod != "OPTIONS" && !CtypeAlnum(driver) ==>
      Route(httpMethod, driver, bind, handle) == Json(400, BadNameMessage)
    ensures httpMethod != "OPTIONS" && CtypeAlnum(driver) && DriverNamespace + driver !in bind ==>
      Route(httpMethod, driver, bind, handle) == Json(404, UnknownDriverMessage)
    ensures httpMethod != "OPTIONS" && CtypeAlnum(driver) && DriverNamespace + driver in bind ==>
      var b := bind[DriverNamespace + driver];
      Route(httpMethod, driver, bind, handle) == if b.isDriver then Handled(handle(b)) else Json(500, NotADriverMessage)
    ensures Route(httpMethod, driver, bind, handle).Handled? <==>
      httpMethod != "OPTIONS" && CtypeAlnum(driver) && DriverNamespace + driver in bind &&
      bind[DriverNamespace + driver].isDriver
  {
  }

  /**
   * A preflight is answered without looking at the driver name or the
   * bindings: the answer is the same for any name, any table and any driver.
   */
  lemma PreflightIgnoresDriver<R>(driver1: string, driver2: string,
                                  bind1: map<string, Binding>, bind2: map<string, Binding>,
                                  handle1: Binding -> R, handle2: Binding -> R)
    ensures Route("OPTIONS", driver1, bind1, handle1) == Route("OPTIONS", driver2, bind2, handle2)
  {
  }

  /**
   * A name that is not alphanumeric is refused before any alias is formed or
   * looked up: the answer does not depend on the bindings or on the driver.
   */
  lemma BadNameIgnoresBindings<R>(httpMethod: string, driver: string,
                                  bind1: map<string, Binding>, bind2: map<string, Binding>,
                                  handle1: Binding -> R, handle2: Binding -> R)
    requires httpMethod != "OPTIONS" && !CtypeAlnum(driver)
    ensures Route(httpMethod, driver, bind1, handle1) == Route(httpMethod, driver, bind2, handle2)
  {
  }

  /**
   * With the default bindings only "crmeb" is served: it reaches the CRMEB
   * driver's `handle`, and every other alphanumeric name gets 404.
   */
  lemma DefaultBindServesOnlyCrmeb<R>(httpMethod: string, driver: string, handle: Binding -> R)
    requires httpMethod != "OPTIONS" && CtypeAlnum(driver)
    ensures driver == "crmeb" ==> Route(httpMethod, driver, DefaultBind(), handle) == Handled(handle(CrmebBinding))
    ensures driver != "crmeb" ==> Route(httpMethod, driver, DefaultBind(), handle) == Json(404, UnknownDriverMessage)
  {
    AliasInjective(driver, "crmeb");
  }
}

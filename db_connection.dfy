/**
 * The connection-string builder of the secure database connector, over the
 * process environment as a map from variable names to values.
 */
module DbConnection {
  import opened Str
  import opened Wrappers

  type Environment = map<string, string>

  /** `os.environ.get(name)`. */
  function Get(env: Environment, name: string): (value: Option<string>)
    ensures value.Some? <==> name in env
  {
    if name in env then Some(env[name]) else None
  }

  /** Python truthiness of the looked-up value: present and non-empty. */
  predicate IsSet(value: Option<string>) {
    value.Some? && value.value != ""
  }

  function ConnectionString(username: string, password: string, host: string, database: string): string {
    "postgresql://" + username + ":" + password + "@" + host + "/" + database
  }

  /**
   * The connection string when the password and then the user name, host and
   * database name are all set; `None` (after the raised error is caught) when
   * any of them is missing or empty.
   */
  function ConnectDbSecure(env: Environment): (r: Option<string>)
    ensures r.Some? <==>
      IsSet(Get(env, "DB_PASSWORD")) && IsSet(Get(env, "DB_USERNAME")) && IsSet(Get(env, "DB_HOST"))
      && IsSet(Get(env, "DB_NAME"))
    ensures r.Some? ==> StartsWith(r.value, "postgresql://")
  {
    var password := Get(env, "DB_PASSWORD");
    if !IsSet(password) then None
    else
      var username := Get(env, "DB_USERNAME");
      var host := Get(env, "DB_HOST");
      var database := Get(env, "DB_NAME");
      if !IsSet(username) || !IsSet(host) || !IsSet(database) then None
      else Some(ConnectionString(username.value, password.value, host.value, database.value))
  }

  /** With all four variables set, each value appears verbatim, in order, between the fixed separators. */
  lemma ComponentsVerbatim(env: Environment)
    requires "DB_USERNAME" in env && "DB_PASSWORD" in env && "DB_HOST" in env && "DB_NAME" in env
    requires env["DB_USERNAME"] != "" && env["DB_PASSWORD"] != "" && env["DB_HOST"] != "" && env["DB_NAME"] != ""
    ensures ConnectDbSecure(env) ==
      Some("postgresql://" + env["DB_USERNAME"] + ":" + env["DB_PASSWORD"] + "@" + env["DB_HOST"] + "/" + env["DB_NAME"])
    ensures Contains(ConnectDbSecure(env).value, env["DB_PASSWORD"])
  {
    var s := ConnectDbSecure(env).value;
    var before := "postgresql://" + env["DB_USERNAME"] + ":";
    var after := "@" + env["DB_HOST"] + "/" + env["DB_NAME"];
    assert s == before + env["DB_PASSWORD"] + after;
    ContainsMiddle(before, env["DB_PASSWORD"], after);
  }

  /**
   * Nothing is escaped: a `:` in the user name and one in the password can
   * trade places, so two different environments give the same string.
   */
  lemma NoEscaping()
    ensures var first := map["DB_USERNAME" := "a:b", "DB_PASSWORD" := "c", "DB_HOST" := "h", "DB_NAME" := "d"];
      var second := map["DB_USERNAME" := "a", "DB_PASSWORD" := "b:c", "DB_HOST" := "h", "DB_NAME" := "d"];
      first != second && ConnectDbSecure(first) == ConnectDbSecure(second) == Some("postgresql://a:b:c@h/d")
  {
    var first := map["DB_USERNAME" := "a:b", "DB_PASSWORD" := "c", "DB_HOST" := "h", "DB_NAME" := "d"];
    var second := map["DB_USERNAME" := "a", "DB_PASSWORD" := "b:c", "DB_HOST" := "h", "DB_NAME" := "d"];
    assert first["DB_PASSWORD"] != second["DB_PASSWORD"];
    ComponentsVerbatim(first);
    ComponentsVerbatim(second);
    ColonInUserName();
    ColonInPassword();
  }

  lemma ColonInUserName()
    ensures ConnectionString("a:b", "c", "h", "d") == "postgresql://a:b:c@h/d"
  {
  }

  lemma ColonInPassword()
    ensures ConnectionString("a", "b:c", "h", "d") == "postgresql://a:b:c@h/d"
  {
  }
}

/** The production configuration (config_production.py): where the database
    lives. The environment variable is a parameter. */
module ProductionConfig {
  import opened Wrappers
  import opened Text

  /** The scheme some hosting providers still hand out, and the one
      SQLAlchemy accepts. */
  const LegacyScheme := "postgres://"
  const PostgresScheme := "postgresql://"

  /** The database used when `DATABASE_URL` is unset or empty. */
  const SqliteFallback := "sqlite:///roomsy.db"

  /** Python's `s.replace(pattern, replacement, 1)` for a non-empty `pattern`. */
  function ReplaceFirst(s: string, pattern: string, replacement: string): string
    requires |pattern| > 0
  {
    var k := FindSub(s, pattern);
    if k == -1 then s else s[..k] + replacement + s[k + |pattern|..]
  }

  /** A string without an occurrence of the pattern comes back unchanged. */
  lemma ReplaceFirstAbsent(s: string, pattern: string, replacement: string)
    requires |pattern| > 0 && forall j :: !OccursAt(s, pattern, j)
    ensures ReplaceFirst(s, pattern, replacement) == s
  {
    var f := FindSub(s, pattern);
    assert f != -1 ==> OccursAt(s, pattern, f);
  }

  /** The first occurrence, and only that one, is replaced. */
  lemma {:induction false} ReplaceFirstSpec(s: string, pattern: string, replacement: string, k: int)
    requires |pattern| > 0 && OccursAt(s, pattern, k)
    requires forall j :: 0 <= j < k ==> !OccursAt(s, pattern, j)
    ensures ReplaceFirst(s, pattern, replacement) == s[..k] + replacement + s[k + |pattern|..]
  {
    var f := FindSub(s, pattern);
    FindSubFirst(s, pattern);
    assert f != -1;
    assert OccursAt(s, pattern, f);
    assert !(f < k);
    assert !(k < f);
  }

  /** `SQLALCHEMY_DATABASE_URI` for the value of `DATABASE_URL` (`None` when
      the variable is unset). */
  function DatabaseUri(env: Option<string>): (uri: string)
    ensures uri != []
  {
    var url := if env.Some? then env.value else "";
    var rewritten := if url != "" && LegacyScheme <= url then ReplaceFirst(url, LegacyScheme, PostgresScheme) else url;
    if rewritten == "" then SqliteFallback else rewritten
  }

  /** A pattern at the very start is the first occurrence. */
  lemma ReplaceFirstAtStart(s: string, pattern: string, replacement: string)
    requires |pattern| > 0 && pattern <= s
    ensures ReplaceFirst(s, pattern, replacement) == replacement + s[|pattern|..]
  {
    assert FindSub(s, pattern) == 0;
    assert s[..0] == [];
  }

  /** A `postgres://` URL has exactly its scheme renamed; the rest is kept,
      even a later `postgres://` inside it. */
  lemma {:induction false} LegacySchemeRewritten(rest: string)
    ensures DatabaseUri(Some(LegacyScheme + rest)) == PostgresScheme + rest
  {
    var url := LegacyScheme + rest;
    assert url[..|LegacyScheme|] == LegacyScheme;
    assert LegacyScheme <= url;
    ReplaceFirstAtStart(url, LegacyScheme, PostgresScheme);
    assert url[|LegacyScheme|..] == rest;
  }

  /** Any other non-empty URL, `postgresql://` ones included, is used as given. */
  lemma OtherUrlsKept(url: string)
    requires url != [] && !(LegacyScheme <= url)
    ensures DatabaseUri(Some(url)) == url
  {
  }

  /** Without a usable `DATABASE_URL` the application falls back to SQLite. */
  lemma MissingUrlFallsBack()
    ensures DatabaseUri(None) == SqliteFallback
    ensures DatabaseUri(Some("")) == SqliteFallback
  {
  }

  /** A rewritten URL no longer has the legacy scheme. */
  lemma PostgresNotLegacy(rest: string)
    ensures !(LegacyScheme <= PostgresScheme + rest)
  {
    var u := PostgresScheme + rest;
    assert u[8] == 'q' && LegacyScheme[8] == ':';
  }

  /** Feeding the configured URI back as `DATABASE_URL` gives it again. */
  lemma {:induction false} DatabaseUriIdempotent(env: Option<string>)
    ensures DatabaseUri(Some(DatabaseUri(env))) == DatabaseUri(env)
  {
    var url := if env.Some? then env.value else "";
    if url != "" && LegacyScheme <= url {
      var rest := url[11..];
      assert url == LegacyScheme + rest;
      LegacySchemeRewritten(rest);
      PostgresNotLegacy(rest);
    } else if url == "" {
      assert !(LegacyScheme <= SqliteFallback) by {
        assert LegacyScheme[0] != SqliteFallback[0];
      }
    }
  }
}

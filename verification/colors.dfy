/** The fixed colour of each status on the timeline (`color_estado`). */
module Colors {
  import opened Wrappers

  /** Status name to `#rrggbb` colour. */
  const StatusColors: map<string, string> := map[
    "Entregado" := "#2ecc71",
    "En desarrollo" := "#1abc9c",
    "Backlog" := "#f1c40f",
    "Para refinar" := "#f5d76e",
    "Escribiendo" := "#e67e22",
    "Para escribir" := "#e74c3c",
    "En Análisis" := "#9b59b6",
    "Cancelado" := "#95a5a6",
    "Error" := "#e74c3c"
  ]

  predicate IsHexDigit(c: char)
  {
    '0' <= c <= '9' || 'a' <= c <= 'f'
  }

  /** A colour written as `#` and six lower-case hexadecimal digits. */
  predicate IsHexColor(s: string)
  {
    |s| == 7 && s[0] == '#' && forall i :: 1 <= i < 7 ==> IsHexDigit(s[i])
  }

  /** The colour the table assigns to a status; statuses missing from the
      table get no fixed colour (the charting library picks one). */
  function ColorOf(estado: string): (c: Option<string>)
    ensures c.Some? <==> estado in StatusColors
    ensures c.Some? ==> IsHexColor(c.value)
  {
    if estado in StatusColors then
      TableIsHex(estado);
      Some(StatusColors[estado])
    else None
  }

  /** Every colour in the table is a well-formed `#rrggbb` value. */
  lemma TableIsHex(estado: string)
    requires estado in StatusColors
    ensures IsHexColor(StatusColors[estado])
  {
  }

  /** The table has nine statuses, and the only two that share a colour are
      `Para escribir` and `Error`. */
  lemma SharedColors(a: string, b: string)
    requires a in StatusColors && b in StatusColors && a != b
    ensures StatusColors[a] == StatusColors[b] <==>
      ({a, b} == {"Para escribir", "Error"})
  {
  }

  /** Every status the loader itself produces (the sample rows and the error
      rows) has a colour. */
  lemma FallbackStatusesHaveColors()
    ensures ColorOf("En desarrollo") == Some("#1abc9c")
    ensures ColorOf("Entregado") == Some("#2ecc71")
    ensures ColorOf("Backlog") == Some("#f1c40f")
    ensures ColorOf("Error") == Some("#e74c3c")
  {
  }
}

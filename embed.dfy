/**
 * What `create_alert_embed` decides about an alert's embed: the emoji and
 * colour looked up from the event and severity with their defaults, the
 * text of each field and whether the instruction field is present.  The
 * Discord embed object itself and the timestamps are not modelled.
 */
module AlertEmbed {
  import opened Wrappers
  import opened Formatting

  /** `SEVERITY_COLORS`. */
  const SeverityColors: map<string, int> := map[
    "Extreme" := 0xFF0000,
    "Severe" := 0xFF6600,
    "Moderate" := 0xFFCC00,
    "Minor" := 0x00CCFF,
    "Unknown" := 0x808080
  ]

  /** `ALERT_EMOJIS`. */
  const AlertEmojis: map<string, string> := map[
    "Tornado Warning" := "\U{1F32A}\U{FE0F}",
    "Tornado Watch" := "\U{1F32A}\U{FE0F}",
    "Severe Thunderstorm Warning" := "\U{26C8}\U{FE0F}",
    "Severe Thunderstorm Watch" := "\U{26C8}\U{FE0F}",
    "Flash Flood Warning" := "\U{1F4A7}",
    "Flash Flood Watch" := "\U{1F4A7}",
    "Flood Warning" := "\U{1F30A}",
    "Flood Watch" := "\U{1F30A}",
    "Winter Storm Warning" := "\U{2744}\U{FE0F}",
    "Winter Storm Watch" := "\U{2744}\U{FE0F}",
    "Blizzard Warning" := "\U{1F328}\U{FE0F}",
    "Ice Storm Warning" := "\U{1F9CA}",
    "Wind Advisory" := "\U{1F4A8}",
    "High Wind Warning" := "\U{1F4A8}",
    "Heat Advisory" := "\U{1F525}",
    "Excessive Heat Warning" := "\U{1F525}",
    "Freeze Warning" := "\U{1F976}",
    "Frost Advisory" := "\U{1F976}",
    "Dense Fog Advisory" := "\U{1F32B}\U{FE0F}",
    "Special Weather Statement" := "\U{2139}\U{FE0F}"
  ]

  /** The emoji of an event the table does not list. */
  const DefaultAlertEmoji: string := "\U{26A0}\U{FE0F}"

  /** `SEVERITY_COLORS.get(severity, SEVERITY_COLORS["Unknown"])`. */
  function SeverityColor(severity: string): (color: int)
    ensures severity in SeverityColors ==> color == SeverityColors[severity]
    ensures severity !in SeverityColors ==> color == SeverityColors["Unknown"]
    ensures color in SeverityColors.Values
  {
    if severity in SeverityColors then SeverityColors[severity] else SeverityColors["Unknown"]
  }

  /** `ALERT_EMOJIS.get(event, "⚠️")`. */
  function AlertEmoji(event: string): (emoji: string)
    ensures event in AlertEmojis ==> emoji == AlertEmojis[event]
    ensures event !in AlertEmojis ==> emoji == DefaultAlertEmoji
  {
    if event in AlertEmojis then AlertEmojis[event] else DefaultAlertEmoji
  }

  /** The alert properties the embed reads; `None` for a missing key. */
  datatype AlertProperties = AlertProperties(
    event: Option<string>,
    severity: Option<string>,
    headline: Option<string>,
    description: Option<string>,
    instruction: Option<string>)

  /** `props.get(key, default)`. */
  function GetOr(value: Option<string>, default: string): (r: string)
    ensures value.None? ==> r == default
    ensures value.Some? ==> r == value.value
  {
    match value
    case None => default
    case Some(v) => v
  }

  /** The content of an alert embed. */
  datatype AlertCard = AlertCard(
    title: string,
    color: int,
    headline: string,
    description: string,
    instruction: Option<string>,
    severity: string)

  /** `create_alert_embed`, without the timestamps. */
  function CreateAlertEmbed(p: AlertProperties): (card: AlertCard)
    ensures card.severity == GetOr(p.severity, "Unknown")
    ensures card.color == SeverityColor(card.severity)
    ensures card.headline == GetOr(p.headline, "No headline available")
    ensures p.description.None? ==> card.description == "No description available"
    ensures p.description.Some? ==> card.description == AlertField(p.description.value)
    ensures |card.description| <= FieldLimit
    ensures card.instruction.Some? <==> p.instruction.Some? && p.instruction.value != ""
    ensures card.instruction.Some? ==> |card.instruction.value| <= FieldLimit
                                       && card.instruction.value == AlertField(p.instruction.value)
  {
    var event := GetOr(p.event, "Unknown Alert");
    var severity := GetOr(p.severity, "Unknown");
    var instruction := GetOr(p.instruction, "");
    AlertCard(
      AlertEmoji(event) + " " + event,
      SeverityColor(severity),
      GetOr(p.headline, "No headline available"),
      AlertField(GetOr(p.description, "No description available")),
      if instruction != "" then Some(AlertField(instruction)) else None,
      severity)
  }

  /** An alert without a severity is drawn grey and reported as of unknown
      severity; the title is the event's emoji, a space and the event, and
      an alert without an event gets the default emoji and "Unknown Alert". */
  lemma EmbedDefaults(p: AlertProperties)
    ensures p.severity.None? ==> CreateAlertEmbed(p).severity == "Unknown" && CreateAlertEmbed(p).color == 0x808080
    ensures p.event.None? ==> CreateAlertEmbed(p).title == DefaultAlertEmoji + " Unknown Alert"
    ensures p.event.Some? ==> CreateAlertEmbed(p).title == AlertEmoji(p.event.value) + " " + p.event.value
  {
  }

  /** An alert of extreme severity, the one severity that always pings, is
      drawn in red. */
  lemma ExtremeIsRed(p: AlertProperties)
    requires p.severity == Some("Extreme")
    ensures CreateAlertEmbed(p).color == 0xFF0000
  {
  }

  /** Every event that always pings has its own emoji rather than the
      default. */
  lemma PingEventsHaveEmoji(event: string)
    requires event == "Tornado Warning" || event == "Flash Flood Warning" || event == "Blizzard Warning"
    ensures AlertEmoji(event) != DefaultAlertEmoji
  {
  }
}

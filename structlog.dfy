/** rename_level_to_severity, the structlog processor that renames an event's
    'level' key to 'severity' in place. */
module StructlogConfig {
  import opened JsonValues

  /** An event dict as the processor chain hands it on. */
  class EventDict {
    var entries: map<string, Json>

    constructor(entries: map<string, Json>)
      ensures this.entries == entries
    {
      this.entries := entries;
    }
  }

  /** The entries after the rename. */
  function Renamed(d: map<string, Json>): map<string, Json>
  {
    if "level" in d then (d - {"level"})["severity" := d["level"]] else d
  }

  /** `event_dict['severity'] = event_dict.pop('level')` when 'level' is
      present; the same dict object is returned. The logger and method name
      arguments are not used. */
  method RenameLevelToSeverity(eventDict: EventDict) returns (r: EventDict)
    modifies eventDict
    ensures r == eventDict
    ensures eventDict.entries == Renamed(old(eventDict.entries))
  {
    if "level" in eventDict.entries {
      var level := eventDict.entries["level"];
      eventDict.entries := eventDict.entries - {"level"};
      eventDict.entries := eventDict.entries["severity" := level];
    }
    r := eventDict;
  }

  /** With 'level' present, afterwards 'level' is gone and 'severity' holds its
      value, whatever 'severity' held before; without it nothing changes; every
      other key keeps its value. */
  lemma RenamedEntries(d: map<string, Json>)
    ensures "level" in d ==> "level" !in Renamed(d) && "severity" in Renamed(d) && Renamed(d)["severity"] == d["level"]
    ensures "level" !in d ==> Renamed(d) == d
    ensures forall k :: k != "level" && k != "severity" ==>
              (k in Renamed(d) <==> k in d) && (k in d ==> Renamed(d)[k] == d[k])
  {
  }

  /** Renaming twice is renaming once. */
  lemma RenamedIdempotent(d: map<string, Json>)
    ensures Renamed(Renamed(d)) == Renamed(d)
  {
  }
}

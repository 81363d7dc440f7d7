/**
  The state every file-type cleaner carries between calls: the metadata
  report of the last clean and its warning and error messages.
*/
module Cleaners {
  import opened Enums

  /** A Python list of messages, shared by reference and cleared in place. */
  class MessageList {
    var items: seq<string>

    constructor ()
      ensures items == []
    {
      items := [];
    }
  }

  /** A Python dict of metadata entries, shared by reference. */
  class MetadataMap {
    var entries: map<string, string>

    constructor (entries: map<string, string>)
      ensures this.entries == entries
    {
      this.entries := entries;
    }
  }

  /**
    `BaseCleaner`. The concrete cleaners hold one of these as `base`.
    `metadataRemoved` is rebound by `clean`; `warnings` and `errors` are never
    rebound, only cleared and appended to.
  */
  class BaseCleaner {
    const level: CleaningLevel
    var metadataRemoved: MetadataMap
    const warnings: MessageList
    const errors: MessageList

    /** The two message lists are distinct objects. */
    predicate Valid() {
      warnings != errors
    }

    /** The objects the cleaner's methods may change. */
    ghost function Objects(): set<object>
      reads this
    {
      {this, metadataRemoved, warnings, errors}
    }

    /** `__init__`: the level, an empty report and no messages. */
    constructor (level: CleaningLevel)
      ensures Valid() && this.level == level
      ensures metadataRemoved.entries == map[] && warnings.items == [] && errors.items == []
      ensures fresh(Objects())
    {
      this.level := level;
      metadataRemoved := new MetadataMap(map[]);
      warnings := new MessageList();
      errors := new MessageList();
    }

    /** `reset`: the three collections are emptied in place, not replaced. */
    method Reset()
      modifies metadataRemoved, warnings, errors
      ensures metadataRemoved.entries == map[] && warnings.items == [] && errors.items == []
    {
      metadataRemoved.entries := map[];
      warnings.items := [];
      errors.items := [];
    }

    /** `add_warning`. */
    method AddWarning(message: string)
      requires Valid()
      modifies warnings
      ensures warnings.items == old(warnings.items) + [message]
      ensures errors.items == old(errors.items)
    {
      warnings.items := warnings.items + [message];
    }

    /** `add_error`. */
    method AddError(message: string)
      requires Valid()
      modifies errors
      ensures errors.items == old(errors.items) + [message]
      ensures warnings.items == old(warnings.items)
    {
      errors.items := errors.items + [message];
    }

    /** `self.metadata_removed = <a new dict>`: the old dict object is left as it was. */
    method SetMetadataRemoved(entries: map<string, string>)
      modifies this
      ensures fresh(metadataRemoved) && metadataRemoved.entries == entries
    {
      metadataRemoved := new MetadataMap(entries);
    }
  }
}

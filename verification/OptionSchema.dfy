/** What re-encoding an option value needs to know about the messages of the pool. */
module OptionSchema {
  import opened Wrappers

  datatype Kind = Scalar | Message | Group

  datatype FieldDesc = FieldDesc(number: nat, kind: Kind, repeated: bool, typeName: string)

  datatype OptionFields = OptionFields(
    byNumber: map<string, map<int, FieldDesc>>,
    extension: map<string, set<int>>,
    messageSet: set<string>)
  {
    function Lookup(owner: string, num: int): Option<FieldDesc> {
      if owner in byNumber && num in byNumber[owner] then Some(byNumber[owner][num]) else None
    }

    /** The descriptor of a field that holds a message, in either encoding. */
    function Submessage(owner: string, num: int): Option<FieldDesc> {
      match Lookup(owner, num)
      case Some(f) => if f.kind != Scalar then Some(f) else None
      case None => None
    }

    /** The field is written as a MessageSet item instead of as a field. */
    predicate AsItem(owner: string, num: int) {
      owner in messageSet && owner in extension && num in extension[owner]
    }
  }

  function TrimLeadingDot(s: string): string {
    if |s| > 0 && s[0] == '.' then s[1..] else s
  }
}

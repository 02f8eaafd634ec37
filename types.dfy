/** The records the client returns (src/types/): one per FETCH line, per LIST line, per selected mailbox. */
module Types {
  import opened Base

  /** src/types/fetch.rs. */
  datatype Fetch = Fetch(message: nat, flags: seq<Bytes>, uid: Option<nat>)

  datatype Name = Name(attributes: seq<Bytes>, delimiter: Bytes, name: Bytes)

  datatype Mailbox = Mailbox(
    flags: seq<Bytes>,
    existsCount: nat,
    recent: nat,
    unseen: Option<nat>,
    permanentFlags: seq<Bytes>,
    uidNext: Option<nat>,
    uidValidity: Option<nat>)

  /** `Mailbox::default()`. */
  const DefaultMailbox := Mailbox([], 0, 0, None, [], None, None)
}

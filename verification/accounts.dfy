/** Authenticated users as the backend's auth service reports them. Only the two
    free-form metadata keys the application reads and writes are modelled. */
module Accounts {
  import opened Wrappers

  /** `user_metadata`: each key may be missing (`None`) or hold a string, possibly empty. */
  datatype Metadata = Metadata(displayName: Option<string>, reminderHour: Option<string>)

  datatype User = User(id: string, email: string, metadata: Metadata)

  /** JavaScript truthiness of an optional string: present and non-empty. */
  predicate Truthy(v: Option<string>) {
    v.Some? && v.value != ""
  }

  /** The expression `v || fallback` on an optional string. */
  function OrElse(v: Option<string>, fallback: string): (r: string)
    ensures Truthy(v) ==> r == v.value
    ensures !Truthy(v) ==> r == fallback
  {
    if Truthy(v) then v.value else fallback
  }
}

/** A stored submission as the browser keeps it: a plain JSON object whose fields
    (name, phone, email, address, aadhar, checkin, checkout, adults, purpose,
    submittedAt, id, and whatever else an imported file carried) are strings. */
module Records {

  type Submission = map<string, string>

  /** What `Date.now().toString(36)` and its random-suffixed variant produce: some
      non-empty string. */
  type Id = s: string | s != [] witness "0"

  /** `item.f || ''`: a missing field reads as the empty string. */
  function Field(x: Submission, f: string): string
  {
    if f in x then x[f] else ""
  }

  /** `item.id` is truthy: present and not the empty string. */
  predicate HasId(x: Submission)
  {
    "id" in x && x["id"] != ""
  }
}

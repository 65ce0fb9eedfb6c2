/** The places where the backend dereferences a reference of a create request that may be null.
    The JVM raises a null pointer exception there itself. Its message is chosen by the JVM: with
    helpful null-pointer messages it describes the failed dereference, without them it is null.
    Either way it depends only on the site, so the model takes the message of each site as a
    parameter. */
module NullSites {
  import opened JavaLang

  datatype NullSite =
    | ServiceMembersSize    // the service's log line reads the size of a null members list
    | ServiceMemberSigns    // the service's loop reads the signs of a null member
    | MockMembersLoop       // the mock iterates a null members list
    | MockMemberFields      // the mock reads the first name of a null member
    | RealMembersGet        // the real client's overwrite calls `get(0)` on a null members list
    | RealFirstMemberSigns  // ... reads the signs of a null first member
    | RealSignsGet          // ... calls `get(0)` on a null signs list
    | RealSetPosition       // ... sets the box of a null first sign position
    | RealMemberSigns       // the real client's loop reads the signs of a null member

  /** The message the JVM gives the exception raised at each site. */
  type NullMessages = NullSite -> Option<string>

  function NullDereference(jvm: NullMessages, site: NullSite): JavaException {
    JavaException(NullPointer, jvm(site))
  }
}

/** Visibility, the filesystem's public/private switch, and how the adapters read it off an object's
    access-control list and write it as a canned ACL. */
module Visibility {
  import opened Wrappers
  import opened Text
  import opened Bucket
  import opened Store

  /** The two visibilities of the filesystem interface. */
  const Public := "public"
  const Private := "private"

  /** The grant lets everyone read: its grantee is a group whose URI contains `allUsers`, and its
      permission is `read`. */
  predicate GrantsPublicRead(gr: Grant, read: string, allUsers: string) {
    gr.granteeUri.Some? && gr.permission == read && Contains(gr.granteeUri.value, allUsers)
  }

  predicate AnyPublicRead(grants: seq<Grant>, read: string, allUsers: string) {
    exists i :: 0 <= i < |grants| && GrantsPublicRead(grants[i], read, allUsers)
  }

  /** The scan over an object's grants in `getVisibility`: public at the first grant letting
      everyone read, private when none does. */
  method ScanGrants(grants: seq<Grant>, read: string, allUsers: string) returns (visibility: string)
    ensures visibility == Public <==> AnyPublicRead(grants, read, allUsers)
    ensures visibility == Private <==> !AnyPublicRead(grants, read, allUsers)
  {
    for i := 0 to |grants|
      invariant forall j :: 0 <= j < i ==> !GrantsPublicRead(grants[j], read, allUsers)
    {
      var gr := grants[i];
      if gr.granteeUri.Some? && gr.permission == read && Contains(gr.granteeUri.value, allUsers) {
        return Public;
      }
    }
    return Private;
  }

  /** The canned ACLs and the scan agree: an object is public after `public-read` or
      `public-read-write` and private after `private`, provided the provider's everyone-group URI
      contains the marker the scan looks for. */
  lemma CannedVisibility(acl: string, allUsersUri: string, allUsers: string)
    requires Contains(allUsersUri, allUsers)
    requires CannedGrants(acl, allUsersUri).Some?
    ensures AnyPublicRead(CannedGrants(acl, allUsersUri).value, PermissionRead, allUsers) <==> acl != AclPrivate
  {
    var grants := CannedGrants(acl, allUsersUri).value;
    if acl != AclPrivate {
      assert GrantsPublicRead(grants[1], PermissionRead, allUsers);
    } else {
      assert grants == OwnerOnly;
    }
  }
}
